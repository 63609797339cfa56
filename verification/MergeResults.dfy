/**
 `merge_local_preprocess_results` of apps/services.py: totals, keyword counts, the 24
 best keywords and the chunks of the completed preprocessing jobs.
 */
module MergeResults {
  import opened Options
  import opened Ordering
  import opened Sums
  import opened PyText

  const KEPT: nat := 24

  datatype Keyword = Keyword(term: Option<string>, count: Option<int>)

  /** A chunk is kept only when it is a dictionary. */
  datatype Chunk = Dict(fields: string) | NotADict

  datatype Result = Result(wordCount: Option<int>, chars: Option<int>, keywords: seq<Keyword>, chunks: seq<Chunk>)

  datatype Job = Job(jobId: string, nodeId: string, result: Option<Result>)

  datatype MergedChunk = MergedChunk(fields: string, nodeId: string, sourceJobId: string)

  type Counts = map<string, int>

  datatype Merged = Merged(
    ready: bool, chars: int, wordCount: int, approxTokens: int,
    keywords: seq<(string, int)>, chunks: seq<MergedChunk>)

  // ---------------------------------------------------------------- one job

  function ResultOf(job: Job): Result {
    job.result.GetOr(Result(None, None, [], []))
  }

  /** `str(term or "").strip().lower()`, with `lower` as a parameter. */
  function Normal(k: Keyword, lower: string -> string): string {
    lower(Strip(k.term.GetOr("")))
  }

  function WordsIn(job: Job): int { ResultOf(job).wordCount.GetOr(0) }

  function CharsIn(job: Job): int { ResultOf(job).chars.GetOr(0) }

  /** What one keyword entry adds to the count of `term`. */
  function EntryCount(k: Keyword, term: string, lower: string -> string): int {
    if Normal(k, lower) == term then k.count.GetOr(0) else 0
  }

  function EntryCounter(term: string, lower: string -> string): Keyword -> int {
    k => EntryCount(k, term, lower)
  }

  function TermCount(job: Job, term: string, lower: string -> string): int {
    Sum(ResultOf(job).keywords, EntryCounter(term, lower))
  }

  function TermCounter(term: string, lower: string -> string): Job -> int {
    job => TermCount(job, term, lower)
  }

  predicate Mentions(job: Job, term: string, lower: string -> string) {
    exists k :: k in ResultOf(job).keywords && Normal(k, lower) == term
  }

  function ChunksIn(job: Job): seq<MergedChunk> {
    KeptChunks(ResultOf(job).chunks, job)
  }

  function KeptChunks(chunks: seq<Chunk>, job: Job): seq<MergedChunk> {
    if chunks == [] then []
    else (match chunks[0] case Dict(f) => [MergedChunk(f, job.nodeId, job.jobId)] case NotADict => [])
         + KeptChunks(chunks[1..], job)
  }

  function AllChunks(jobs: seq<Job>): seq<MergedChunk> {
    if jobs == [] then [] else ChunksIn(jobs[0]) + AllChunks(jobs[1..])
  }

  /** `int(words * 1.35)`: truncation toward zero. */
  function ApproxTokens(words: int): int {
    if words >= 0 then words * 135 / 100 else -((-words) * 135 / 100)
  }

  // ---------------------------------------------------------------- what the counts mean

  /** The terms are those that occur, and each count is the sum over all jobs. */
  ghost predicate CountsOf(counts: Counts, jobs: seq<Job>, lower: string -> string) {
    forall t: string ::
      && (t in counts <==> t != "" && exists job :: job in jobs && Mentions(job, t, lower))
      && (t in counts ==> counts[t] == Sum(jobs, TermCounter(t, lower)))
  }

  /** The order of the ranking: the larger count first, then the smaller term. */
  predicate RanksBefore(a: (string, int), b: (string, int)) {
    a.1 > b.1 || (a.1 == b.1 && StrLess(a.0, b.0))
  }

  lemma RanksBeforeIsStrictTotalOrder()
    ensures StrictTotalOrder(RanksBefore)
  {
    StrLessIsStrictTotalOrder();
  }

  function Ranking(counts: Counts): seq<(string, int)> {
    RanksBeforeIsStrictTotalOrder();
    Sorted(counts.Items, RanksBefore)
  }

  function Kept(all: seq<(string, int)>): seq<(string, int)> {
    if |all| <= KEPT then all else all[..KEPT]
  }

  /** `sorted(items, key=(-count, term))[:24]`. */
  function TopKeywords(counts: Counts): seq<(string, int)> {
    Kept(Ranking(counts))
  }

  // ---------------------------------------------------------------- the loops

  /** `counts` is `before` with the entries of `done` added. */
  ghost predicate Counted(counts: Counts, before: Counts, done: seq<Keyword>, lower: string -> string) {
    && "" !in before
    && forall t: string ::
      && (t in counts <==> t in before || (t != "" && exists k :: k in done && Normal(k, lower) == t))
      && (t in counts ==>
            counts[t] == (if t in before then before[t] else 0) + Sum(done, EntryCounter(t, lower)))
  }

  method CountKeywords(job: Job, lower: string -> string, before: Counts) returns (counts: Counts)
    requires "" !in before
    ensures Counted(counts, before, ResultOf(job).keywords, lower)
  {
    var keywords := ResultOf(job).keywords;
    counts := before;
    NothingCounted(before, lower);
    for i := 0 to |keywords|
      invariant Counted(counts, before, keywords[..i], lower)
    {
      assert keywords[..i + 1] == keywords[..i] + [keywords[i]];
      counts := CountEntry(counts, before, keywords[..i], keywords[i], lower);
    }
    assert keywords[..|keywords|] == keywords;
  }

  method CountEntry(counts: Counts, ghost before: Counts, ghost done: seq<Keyword>, k: Keyword, lower: string -> string)
    returns (next: Counts)
    requires Counted(counts, before, done, lower)
    ensures Counted(next, before, done + [k], lower)
  {
    OneEntryMore(counts, before, done, k, lower);
    var term := Normal(k, lower);
    next := counts;
    if term != "" {
      next := counts[term := (if term in counts then counts[term] else 0) + k.count.GetOr(0)];
    }
  }

  lemma NothingCounted(before: Counts, lower: string -> string)
    requires "" !in before
    ensures Counted(before, before, [], lower)
  {
  }

  lemma OneEntryMore(counts: Counts, before: Counts, done: seq<Keyword>, k: Keyword, lower: string -> string)
    requires Counted(counts, before, done, lower)
    ensures var term := Normal(k, lower);
            var next := if term == "" then counts
                        else counts[term := (if term in counts then counts[term] else 0) + k.count.GetOr(0)];
            Counted(next, before, done + [k], lower)
  {
    var term := Normal(k, lower);
    var next := if term == "" then counts
                else counts[term := (if term in counts then counts[term] else 0) + k.count.GetOr(0)];
    var all := done + [k];
    assert forall e :: e in all <==> e in done || e == k;
    forall t: string
      ensures t in next <==> t in before || (t != "" && exists e :: e in all && Normal(e, lower) == t)
      ensures t in next ==>
                next[t] == (if t in before then before[t] else 0) + Sum(all, EntryCounter(t, lower))
    {
      var f := EntryCounter(t, lower);
      SumOfOneMore(done, k, f);
      if t !in counts && t != "" {
        SumOfZeros(done, f);
      }
      if t == term && t != "" {
        assert k in all;
      }
    }
  }

  lemma {:induction false} SumOfZeros<T>(s: seq<T>, f: T -> int)
    requires forall x :: x in s ==> f(x) == 0
    ensures Sum(s, f) == 0
  {
    if s != [] {
      SumOfZeros(s[1..], f);
    }
  }

  lemma NotMentioned(jobs: seq<Job>, t: string, lower: string -> string)
    requires forall job :: job in jobs ==> !Mentions(job, t, lower)
    ensures Sum(jobs, TermCounter(t, lower)) == 0
  {
    forall job | job in jobs ensures TermCount(job, t, lower) == 0 {
      SumOfZeros(ResultOf(job).keywords, EntryCounter(t, lower));
    }
    SumOfZeros(jobs, TermCounter(t, lower));
  }

  lemma TermOfOneMore(before: Counts, after: Counts, done: seq<Job>, job: Job, lower: string -> string, t: string)
    requires CountsOf(before, done, lower)
    requires Counted(after, before, ResultOf(job).keywords, lower)
    ensures t in after <==> t != "" && exists j :: j in done + [job] && Mentions(j, t, lower)
    ensures t in after ==> after[t] == Sum(done + [job], TermCounter(t, lower))
  {
    MentionedByOneMore(done, job, t, lower);
    if t in after {
      SumOfOneMore(done, job, TermCounter(t, lower));
      if t !in before {
        NotMentioned(done, t, lower);
      }
    }
  }

  /** Counting one more job keeps the meaning of the counts. */
  lemma CountsOfOneMore(before: Counts, after: Counts, done: seq<Job>, job: Job, lower: string -> string)
    requires CountsOf(before, done, lower)
    requires Counted(after, before, ResultOf(job).keywords, lower)
    ensures CountsOf(after, done + [job], lower)
  {
    forall t: string
      ensures t in after <==> t != "" && exists j :: j in done + [job] && Mentions(j, t, lower)
      ensures t in after ==> after[t] == Sum(done + [job], TermCounter(t, lower))
    {
      TermOfOneMore(before, after, done, job, lower, t);
    }
  }

  lemma MentionedByOneMore(done: seq<Job>, job: Job, t: string, lower: string -> string)
    ensures (exists j :: j in done + [job] && Mentions(j, t, lower)) <==>
              (exists j :: j in done && Mentions(j, t, lower)) || Mentions(job, t, lower)
  {
    var all := done + [job];
    assert forall j :: j in all <==> j in done || j == job;
    if Mentions(job, t, lower) {
      assert job in all;
    }
    if j :| j in done && Mentions(j, t, lower) {
      assert j in all;
    }
  }

  lemma {:induction false} AllChunksAppend(jobs: seq<Job>, job: Job)
    ensures AllChunks(jobs + [job]) == AllChunks(jobs) + ChunksIn(job)
  {
    if jobs == [] {
      assert jobs + [job] == [job];
      assert [job][1..] == [];
    } else {
      AllChunksAppend(jobs[1..], job);
      assert (jobs + [job])[1..] == jobs[1..] + [job];
      assert (jobs + [job])[0] == jobs[0];
      ConcatenationAssociates(ChunksIn(jobs[0]), AllChunks(jobs[1..]), ChunksIn(job));
    }
  }

  lemma ConcatenationAssociates<T>(a: seq<T>, b: seq<T>, c: seq<T>)
    ensures a + b + c == a + (b + c)
  {
  }

  /** What `Merge` returns: the totals, the ranking of the counts, and the chunks in job order. */
  ghost predicate IsMerge(merged: Merged, jobs: seq<Job>, lower: string -> string) {
    exists counts :: CountsOf(counts, jobs, lower) && merged == MergedWith(counts, jobs)
  }

  function MergedWith(counts: Counts, jobs: seq<Job>): Merged {
    Merged(jobs != [], Sum(jobs, CharsIn), Sum(jobs, WordsIn), ApproxTokens(Sum(jobs, WordsIn)),
           TopKeywords(counts), AllChunks(jobs))
  }

  method Merge(jobs: seq<Job>, lower: string -> string) returns (merged: Merged)
    ensures IsMerge(merged, jobs, lower)
  {
    var keywordCounts: Counts := map[];
    var chunks: seq<MergedChunk> := [];
    var totalWords, totalChars := 0, 0;
    for i := 0 to |jobs|
      invariant CountsOf(keywordCounts, jobs[..i], lower)
      invariant totalWords == Sum(jobs[..i], WordsIn) && totalChars == Sum(jobs[..i], CharsIn)
      invariant chunks == AllChunks(jobs[..i])
    {
      assert jobs[..i + 1] == jobs[..i] + [jobs[i]];
      SumOfOneMore(jobs[..i], jobs[i], WordsIn);
      SumOfOneMore(jobs[..i], jobs[i], CharsIn);
      AllChunksAppend(jobs[..i], jobs[i]);
      totalWords := totalWords + WordsIn(jobs[i]);
      totalChars := totalChars + CharsIn(jobs[i]);
      var next := CountKeywords(jobs[i], lower, keywordCounts);
      CountsOfOneMore(keywordCounts, next, jobs[..i], jobs[i], lower);
      keywordCounts := next;
      chunks := chunks + ChunksIn(jobs[i]);
    }
    assert jobs[..|jobs|] == jobs;
    merged := Merged(jobs != [], totalChars, totalWords, if totalWords != 0 then ApproxTokens(totalWords) else 0,
                     TopKeywords(keywordCounts), chunks);
    assert merged == MergedWith(keywordCounts, jobs);
  }

  // ---------------------------------------------------------------- properties

  lemma CountsAreUnique(a: Counts, b: Counts, jobs: seq<Job>, lower: string -> string)
    requires CountsOf(a, jobs, lower) && CountsOf(b, jobs, lower)
    ensures a == b
  {
    assert a.Keys == b.Keys;
  }

  lemma CountsOfPermutation(counts: Counts, jobs: seq<Job>, permuted: seq<Job>, lower: string -> string)
    requires CountsOf(counts, jobs, lower) && multiset(jobs) == multiset(permuted)
    ensures CountsOf(counts, permuted, lower)
  {
    assert forall job :: job in jobs <==> job in multiset(jobs);
    assert forall job :: job in permuted <==> job in multiset(permuted);
    forall t: string
      ensures t in counts <==> t != "" && exists job :: job in permuted && Mentions(job, t, lower)
      ensures t in counts ==> counts[t] == Sum(permuted, TermCounter(t, lower))
    {
      SumOfPermutation(jobs, permuted, TermCounter(t, lower));
    }
  }

  function Occurrences(job: Job, c: MergedChunk): int {
    multiset(ChunksIn(job))[c]
  }

  function OccurrenceCounter(c: MergedChunk): Job -> int {
    job => Occurrences(job, c)
  }

  lemma {:induction false} ChunkOccurrences(jobs: seq<Job>, c: MergedChunk)
    ensures multiset(AllChunks(jobs))[c] == Sum(jobs, OccurrenceCounter(c))
  {
    if jobs != [] {
      ChunkOccurrences(jobs[1..], c);
    }
  }

  lemma ChunksOfPermutation(jobs: seq<Job>, permuted: seq<Job>)
    requires multiset(jobs) == multiset(permuted)
    ensures multiset(AllChunks(jobs)) == multiset(AllChunks(permuted))
  {
    forall c: MergedChunk
      ensures multiset(AllChunks(jobs))[c] == multiset(AllChunks(permuted))[c]
    {
      ChunkOccurrences(jobs, c);
      ChunkOccurrences(permuted, c);
      SumOfPermutation(jobs, permuted, OccurrenceCounter(c));
    }
  }

  /** The order in which jobs are merged does not matter, chunks being kept as a multiset. */
  lemma MergeIsOrderIndependent(jobs: seq<Job>, permuted: seq<Job>, lower: string -> string, a: Merged, b: Merged)
    requires multiset(jobs) == multiset(permuted)
    requires IsMerge(a, jobs, lower) && IsMerge(b, permuted, lower)
    ensures a.(chunks := []) == b.(chunks := [])
    ensures multiset(a.chunks) == multiset(b.chunks)
  {
    var countsA :| CountsOf(countsA, jobs, lower) && a == MergedWith(countsA, jobs);
    var countsB :| CountsOf(countsB, permuted, lower) && b == MergedWith(countsB, permuted);
    SumOfPermutation(jobs, permuted, CharsIn);
    SumOfPermutation(jobs, permuted, WordsIn);
    CountsOfPermutation(countsA, jobs, permuted, lower);
    CountsAreUnique(countsA, countsB, permuted, lower);
    ChunksOfPermutation(jobs, permuted);
    assert |multiset(jobs)| == |jobs| && |multiset(permuted)| == |permuted|;
  }

  /**
   The keywords kept: in rank order, each with its total over all jobs, 24 of them or all;
   and every term left out ranks after every term kept.
   */
  lemma KeptKeywordsAreTheBest(jobs: seq<Job>, counts: Counts, lower: string -> string)
    requires CountsOf(counts, jobs, lower)
    ensures var kept := TopKeywords(counts);
            && |kept| == (if |counts| <= KEPT then |counts| else KEPT)
            && SortedBy(kept, RanksBefore)
            && (forall p :: p in kept ==>
                  p.0 in counts && p.1 == Sum(jobs, TermCounter(p.0, lower)))
            && (forall p, q :: p in kept && q in counts.Items && q !in kept ==> RanksBefore(p, q))
  {
    RanksBeforeIsStrictTotalOrder();
    ItemsCount(counts);
    KeptOfRanking(Ranking(counts), counts.Items);
    forall p | p in TopKeywords(counts)
      ensures p.0 in counts && p.1 == Sum(jobs, TermCounter(p.0, lower))
    {
      assert p in counts.Items;
    }
  }

  lemma KeptOfRanking(all: seq<(string, int)>, items: set<(string, int)>)
    requires SortedBy(all, RanksBefore) && |all| == |items| && forall p :: p in all <==> p in items
    ensures |Kept(all)| == if |items| <= KEPT then |items| else KEPT
    ensures SortedBy(Kept(all), RanksBefore)
    ensures forall p :: p in Kept(all) ==> p in items
    ensures forall p, q :: p in Kept(all) && q in items && q !in Kept(all) ==> RanksBefore(p, q)
  {
    PrefixOfSorted(all, Kept(all), RanksBefore);
    assert forall p :: p in Kept(all) ==> p in all;
  }

  lemma PrefixOfSorted<T(!new)>(all: seq<T>, kept: seq<T>, lt: (T, T) -> bool)
    requires SortedBy(all, lt) && kept <= all
    ensures SortedBy(kept, lt)
    ensures forall p, q :: p in kept && q in all && q !in kept ==> lt(p, q)
  {
    forall p, q | p in kept && q in all && q !in kept ensures lt(p, q) {
      var i :| 0 <= i < |kept| && kept[i] == p;
      var j :| 0 <= j < |all| && all[j] == q;
      assert forall m :: 0 <= m < |kept| ==> kept[m] == all[m];
      assert j >= |kept|;
    }
  }

  lemma ItemsCount(counts: Counts)
    ensures |counts.Items| == |counts|
  {
  }
}
