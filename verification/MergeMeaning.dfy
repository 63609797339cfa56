/**
 What a merge holds, read off the jobs themselves: the reported totals, every keyword with its
 total, and every dictionary chunk at its place.
 */
module MergeMeaning {
  import opened Options
  import opened Ordering
  import opened Sums
  import opened PyText
  import opened MergeResults

  lemma {:induction false} SameSums<T>(s: seq<T>, f: T -> int, g: T -> int)
    requires forall x :: x in s ==> f(x) == g(x)
    ensures Sum(s, f) == Sum(s, g)
  {
    if s != [] {
      SameSums(s[1..], f, g);
    }
  }

  // ---------------------------------------------------------------- totals

  /** `int((job.get("result") or {}).get("word_count") or 0)`. */
  function ReportedWords(job: Job): int {
    match job.result
    case Some(r) => (match r.wordCount case Some(n) => n case None => 0)
    case None => 0
  }

  function ReportedChars(job: Job): int {
    match job.result
    case Some(r) => (match r.chars case Some(n) => n case None => 0)
    case None => 0
  }

  /** The totals are the sums of what the jobs report, and the tokens 1.35 times the words, truncated. */
  lemma MergedTotals(merged: Merged, jobs: seq<Job>, lower: string -> string)
    requires IsMerge(merged, jobs, lower)
    ensures merged.wordCount == Sum(jobs, ReportedWords) && merged.chars == Sum(jobs, ReportedChars)
    ensures merged.ready <==> jobs != []
    ensures var w, t := merged.wordCount, merged.approxTokens;
            if w >= 0 then 100 * t <= 135 * w < 100 * (t + 1) else 100 * (t - 1) < 135 * w <= 100 * t
  {
    SameSums(jobs, WordsIn, ReportedWords);
    SameSums(jobs, CharsIn, ReportedChars);
  }

  // ---------------------------------------------------------------- keywords

  /** The normalised term of an entry. */
  function Term(k: Keyword, lower: string -> string): string {
    match k.term case Some(t) => lower(Strip(t)) case None => lower("")
  }

  /** What an entry counts for term `t`. */
  function Entry(t: string, lower: string -> string): Keyword -> int {
    k => if Term(k, lower) == t && k.count.Some? then k.count.value else 0
  }

  function Entries(t: string, lower: string -> string): Job -> int {
    (job: Job) => if job.result.Some? then Sum(job.result.value.keywords, Entry(t, lower)) else 0
  }

  /** Some job reports the term. */
  ghost predicate Reported(jobs: seq<Job>, t: string, lower: string -> string) {
    exists i, k :: 0 <= i < |jobs| && jobs[i].result.Some? && k in jobs[i].result.value.keywords && Term(k, lower) == t
  }

  lemma TotalOf(jobs: seq<Job>, t: string, lower: string -> string)
    ensures Sum(jobs, TermCounter(t, lower)) == Sum(jobs, Entries(t, lower))
  {
    forall job | job in jobs ensures TermCounter(t, lower)(job) == Entries(t, lower)(job) {
      if job.result.Some? {
        SameSums(job.result.value.keywords, EntryCounter(t, lower), Entry(t, lower));
      }
    }
    SameSums(jobs, TermCounter(t, lower), Entries(t, lower));
  }

  lemma ReportedExactly(jobs: seq<Job>, t: string, lower: string -> string)
    ensures Reported(jobs, t, lower) <==> exists job :: job in jobs && Mentions(job, t, lower)
  {
    if Reported(jobs, t, lower) {
      var i, k :| 0 <= i < |jobs| && jobs[i].result.Some? && k in jobs[i].result.value.keywords && Term(k, lower) == t;
      assert k in ResultOf(jobs[i]).keywords && Normal(k, lower) == t;
      assert Mentions(jobs[i], t, lower);
    }
    if job :| job in jobs && Mentions(job, t, lower) {
      var i :| 0 <= i < |jobs| && jobs[i] == job;
      var k :| k in ResultOf(job).keywords && Normal(k, lower) == t;
      assert k in jobs[i].result.value.keywords && Term(k, lower) == t;
    }
  }

  /**
   The keywords: each is a reported term with its total over all jobs; they come by larger
   total, then by smaller term; and a reported term is left out only after 24 that rank before it.
   */
  lemma MergedKeywords(merged: Merged, jobs: seq<Job>, lower: string -> string)
    requires IsMerge(merged, jobs, lower)
    ensures forall p :: p in merged.keywords ==>
              p.0 != "" && Reported(jobs, p.0, lower) && p.1 == Sum(jobs, Entries(p.0, lower))
    ensures forall i, j :: 0 <= i < j < |merged.keywords| ==>
              var a, b := merged.keywords[i], merged.keywords[j];
              a.1 > b.1 || (a.1 == b.1 && StrLess(a.0, b.0))
    ensures |merged.keywords| <= 24
    ensures forall t :: t != "" && Reported(jobs, t, lower) ==>
              var p := (t, Sum(jobs, Entries(t, lower)));
              p in merged.keywords
              || (|merged.keywords| == 24
                  && forall k :: k in merged.keywords ==> k.1 > p.1 || (k.1 == p.1 && StrLess(k.0, t)))
  {
    var counts :| CountsOf(counts, jobs, lower) && merged == MergedWith(counts, jobs);
    CountsAreTotals(counts, jobs, lower);
    KeptAreCounts(counts, merged.keywords);
    LeftOut(counts, merged.keywords);
  }

  lemma CountsAreTotals(counts: Counts, jobs: seq<Job>, lower: string -> string)
    requires CountsOf(counts, jobs, lower)
    ensures forall t :: t in counts <==> t != "" && Reported(jobs, t, lower)
    ensures forall t :: t in counts ==> counts[t] == Sum(jobs, Entries(t, lower))
  {
    forall t
      ensures t in counts <==> t != "" && Reported(jobs, t, lower)
      ensures t in counts ==> counts[t] == Sum(jobs, Entries(t, lower))
    {
      TotalOf(jobs, t, lower);
      ReportedExactly(jobs, t, lower);
    }
  }

  lemma KeptAreCounts(counts: Counts, kept: seq<(string, int)>)
    requires kept == TopKeywords(counts)
    ensures forall p :: p in kept ==> p.0 in counts && p.1 == counts[p.0]
    ensures forall i, j :: 0 <= i < j < |kept| ==>
              kept[i].1 > kept[j].1 || (kept[i].1 == kept[j].1 && StrLess(kept[i].0, kept[j].0))
  {
    RanksBeforeIsStrictTotalOrder();
    ItemsCount(counts);
    KeptOfRanking(Ranking(counts), counts.Items);
    forall i, j | 0 <= i < j < |kept|
      ensures kept[i].1 > kept[j].1 || (kept[i].1 == kept[j].1 && StrLess(kept[i].0, kept[j].0))
    {
      assert RanksBefore(kept[i], kept[j]);
    }
    forall p | p in kept ensures p.0 in counts && p.1 == counts[p.0] {
      assert p in counts.Items;
    }
  }

  lemma LeftOut(counts: Counts, kept: seq<(string, int)>)
    requires kept == TopKeywords(counts)
    ensures |kept| <= 24
    ensures forall t :: t in counts ==>
              (t, counts[t]) in kept
              || (|kept| == 24 && forall k :: k in kept ==> RanksBefore(k, (t, counts[t])))
  {
    RanksBeforeIsStrictTotalOrder();
    ItemsCount(counts);
    KeptOfRanking(Ranking(counts), counts.Items);
    forall t | t in counts && (t, counts[t]) !in kept
      ensures |kept| == 24 && forall k :: k in kept ==> RanksBefore(k, (t, counts[t]))
    {
      assert (t, counts[t]) in counts.Items;
      assert (t, counts[t]) in Ranking(counts);
    }
  }

  // ---------------------------------------------------------------- chunks

  /** `c` is the dictionary chunk at place `p.1` of job `p.0`, with that job's node and id. */
  predicate IsChunkAt(jobs: seq<Job>, p: (int, int), c: MergedChunk) {
    && 0 <= p.0 < |jobs| && jobs[p.0].result.Some?
    && 0 <= p.1 < |jobs[p.0].result.value.chunks|
    && jobs[p.0].result.value.chunks[p.1] == Dict(c.fields)
    && c.nodeId == jobs[p.0].nodeId && c.sourceJobId == jobs[p.0].jobId
  }

  /** By job, and within a job by place. */
  predicate Precedes(p: (int, int), q: (int, int)) {
    p.0 < q.0 || (p.0 == q.0 && p.1 < q.1)
  }

  /** The chunks are those at these places, in order, and no dictionary is left out. */
  ghost predicate AreChunks(jobs: seq<Job>, chunks: seq<MergedChunk>, places: seq<(int, int)>) {
    && |places| == |chunks|
    && (forall k :: 0 <= k < |chunks| ==> IsChunkAt(jobs, places[k], chunks[k]))
    && (forall k, l :: 0 <= k < l < |places| ==> Precedes(places[k], places[l]))
    && (forall p, c :: IsChunkAt(jobs, p, c) ==> p in places)
  }

  /** The dictionary chunks of one job, by place, up to place `n`. */
  ghost predicate AreKept(job: Job, chunks: seq<Chunk>, kept: seq<MergedChunk>, at: seq<int>) {
    && |at| == |kept|
    && (forall k :: 0 <= k < |kept| ==> 0 <= at[k] < |chunks| && chunks[at[k]] == Dict(kept[k].fields))
    && (forall k :: 0 <= k < |kept| ==> kept[k].nodeId == job.nodeId && kept[k].sourceJobId == job.jobId)
    && (forall k, l :: 0 <= k < l < |at| ==> at[k] < at[l])
    && (forall p :: 0 <= p < |chunks| && chunks[p].Dict? ==> p in at)
  }

  lemma {:induction false} KeptAppend(chunks: seq<Chunk>, c: Chunk, job: Job)
    ensures KeptChunks(chunks + [c], job) == KeptChunks(chunks, job) + KeptChunks([c], job)
  {
    if chunks == [] {
      assert chunks + [c] == [c];
    } else {
      KeptAppend(chunks[1..], c, job);
      assert (chunks + [c])[1..] == chunks[1..] + [c] && (chunks + [c])[0] == chunks[0];
    }
  }

  lemma {:induction false} KeptPlaces(chunks: seq<Chunk>, job: Job) returns (at: seq<int>)
    ensures AreKept(job, chunks, KeptChunks(chunks, job), at)
    decreases |chunks|
  {
    at := [];
    if chunks != [] {
      var n := |chunks| - 1;
      var init, last := chunks[..n], chunks[n];
      at := KeptPlaces(init, job);
      KeptAppend(init, last, job);
      assert chunks == init + [last] && [last][1..] == [];
      OnePlaceMore(job, init, last, KeptChunks(init, job), at);
      if last.Dict? {
        assert KeptChunks([last], job) == [MergedChunk(last.fields, job.nodeId, job.jobId)];
        at := at + [n];
      }
    }
  }

  lemma OnePlaceMore(job: Job, init: seq<Chunk>, last: Chunk, kept: seq<MergedChunk>, at: seq<int>)
    requires AreKept(job, init, kept, at)
    ensures last.Dict? ==>
              AreKept(job, init + [last], kept + [MergedChunk(last.fields, job.nodeId, job.jobId)], at + [|init|])
    ensures !last.Dict? ==> AreKept(job, init + [last], kept, at)
  {
    var chunks := init + [last];
    assert forall p :: 0 <= p < |init| ==> chunks[p] == init[p];
    forall p | 0 <= p < |chunks| && chunks[p].Dict? ensures p in at + [|init|] && (p < |init| ==> p in at) {
      if p == |init| {
        assert (at + [|init|])[|at|] == p;
      }
    }
  }

  function AtJob(at: seq<int>, n: int): (places: seq<(int, int)>)
    ensures |places| == |at| && forall k :: 0 <= k < |places| ==> places[k] == (n, at[k])
  {
    if at == [] then [] else [(n, at[0])] + AtJob(at[1..], n)
  }

  lemma {:induction false} ChunkPlaces(jobs: seq<Job>) returns (places: seq<(int, int)>)
    ensures AreChunks(jobs, AllChunks(jobs), places)
    decreases |jobs|
  {
    places := [];
    if jobs != [] {
      var n := |jobs| - 1;
      var init, job := jobs[..n], jobs[n];
      var before := ChunkPlaces(init);
      var at := KeptPlaces(ResultOf(job).chunks, job);
      AllChunksAppend(init, job);
      assert jobs == init + [job];
      places := before + AtJob(at, n);
      OneJobMore(init, job, AllChunks(init), before, ChunksIn(job), at);
    }
  }

  lemma OneJobMore(init: seq<Job>, job: Job, chunks: seq<MergedChunk>, before: seq<(int, int)>,
                   kept: seq<MergedChunk>, at: seq<int>)
    requires AreChunks(init, chunks, before)
    requires AreKept(job, if job.result.Some? then job.result.value.chunks else [], kept, at)
    ensures AreChunks(init + [job], chunks + kept, before + AtJob(at, |init|))
  {
    PlacesOfOneJobMore(init, job, chunks, before, kept, at);
    NoPlaceIsMissing(init, job, chunks, before, kept, at);
  }

  lemma PlacesOfOneJobMore(init: seq<Job>, job: Job, chunks: seq<MergedChunk>, before: seq<(int, int)>,
                           kept: seq<MergedChunk>, at: seq<int>)
    requires AreChunks(init, chunks, before)
    requires AreKept(job, if job.result.Some? then job.result.value.chunks else [], kept, at)
    ensures var jobs, all, places := init + [job], chunks + kept, before + AtJob(at, |init|);
            && |places| == |all|
            && (forall k :: 0 <= k < |all| ==> IsChunkAt(jobs, places[k], all[k]))
            && (forall k, l :: 0 <= k < l < |places| ==> Precedes(places[k], places[l]))
  {
    var jobs, all, places := init + [job], chunks + kept, before + AtJob(at, |init|);
    forall k | 0 <= k < |all| ensures IsChunkAt(jobs, places[k], all[k]) && (k < |before| <==> places[k].0 < |init|) {
      if k < |before| {
        assert IsChunkAt(init, before[k], chunks[k]);
      }
    }
  }

  lemma NoPlaceIsMissing(init: seq<Job>, job: Job, chunks: seq<MergedChunk>, before: seq<(int, int)>,
                         kept: seq<MergedChunk>, at: seq<int>)
    requires AreChunks(init, chunks, before)
    requires AreKept(job, if job.result.Some? then job.result.value.chunks else [], kept, at)
    ensures forall p, c :: IsChunkAt(init + [job], p, c) ==> p in before + AtJob(at, |init|)
  {
    var jobs := init + [job];
    forall p, c | IsChunkAt(jobs, p, c) ensures p in before + AtJob(at, |init|) {
      if p.0 < |init| {
        assert IsChunkAt(init, p, c);
      } else {
        var k :| 0 <= k < |at| && at[k] == p.1;
        assert AtJob(at, |init|)[k] == p;
      }
    }
  }

  /**
   Every dictionary chunk of every job is in the merge exactly once, with the node and the id
   of its job, in the order of the jobs and, within a job, of its chunks.
   */
  lemma MergedChunks(merged: Merged, jobs: seq<Job>, lower: string -> string) returns (places: seq<(int, int)>)
    requires IsMerge(merged, jobs, lower)
    ensures AreChunks(jobs, merged.chunks, places)
  {
    places := ChunkPlaces(jobs);
  }

  /** How often a dictionary occurs in the results of the jobs with this node and id. */
  function DictsOf(f: string, node: string, id: string): Job -> int {
    (job: Job) => if job.nodeId == node && job.jobId == id && job.result.Some?
           then multiset(job.result.value.chunks)[Dict(f)] else 0
  }

  lemma {:induction false} KeptOccurrences(chunks: seq<Chunk>, job: Job, f: string, node: string, id: string)
    ensures multiset(KeptChunks(chunks, job))[MergedChunk(f, node, id)] ==
            if job.nodeId == node && job.jobId == id then multiset(chunks)[Dict(f)] else 0
    decreases |chunks|
  {
    if chunks != [] {
      var n := |chunks| - 1;
      KeptOccurrences(chunks[..n], job, f, node, id);
      KeptAppend(chunks[..n], chunks[n], job);
      assert chunks == chunks[..n] + [chunks[n]];
      assert [chunks[n]][1..] == [];
    }
  }

  /** A chunk occurs in the merge as often as its dictionary in the jobs of its node and id. */
  lemma MergedChunkCount(merged: Merged, jobs: seq<Job>, lower: string -> string, f: string, node: string, id: string)
    requires IsMerge(merged, jobs, lower)
    ensures multiset(merged.chunks)[MergedChunk(f, node, id)] == Sum(jobs, DictsOf(f, node, id))
  {
    var c := MergedChunk(f, node, id);
    ChunkOccurrences(jobs, c);
    forall job | job in jobs ensures OccurrenceCounter(c)(job) == DictsOf(f, node, id)(job) {
      KeptOccurrences(ResultOf(job).chunks, job, f, node, id);
    }
    SameSums(jobs, OccurrenceCounter(c), DictsOf(f, node, id));
  }
}
