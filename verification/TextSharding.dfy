/**
 `split_text_for_nodes` of apps/services.py: white space is normalised, then the text
 is cut at word boundaries into at most `count` shards of roughly equal length.
 */
module TextSharding {
  import opened PyText
  import opened WordRuns

  /** How far past the target length a cut looks for a blank. */
  const SLACK: nat := 200

  function Min(a: int, b: int): int {
    if a <= b then a else b
  }

  function Normalized(text: string): string {
    Join(Words(text))
  }

  function Target(length: nat, count: int): (t: nat)
    requires count >= 1
    ensures t >= 1
  {
    if length / count >= 1 then length / count else 1
  }

  /** The target is the text length over the count, rounded down, and at least one. */
  lemma TargetIsQuotient(length: nat, count: int)
    requires count >= 1
    ensures var t := Target(length, count);
            t >= 1 && length < count * (t + 1) && (count * t <= length || (t == 1 && length < count))
  {
    var q := length / count;
    assert length == count * q + length % count;
    assert count * (q + 1) == count * q + count;
  }

  // ---------------------------------------------------------------- one cut

  function End(clean: string, target: nat, start: nat): nat {
    Min(|clean|, start + target)
  }

  /** The stretch of text in which a cut that starts at `start` looks for a blank. */
  function WindowEnd(clean: string, target: nat, start: nat): nat {
    Min(|clean|, End(clean, target, start) + SLACK)
  }

  function Boundary(clean: string, target: nat, start: nat): (b: nat)
    requires start <= |clean|
    ensures start <= b <= |clean|
  {
    var b := RFindSpace(clean, start, WindowEnd(clean, target, start));
    if b <= start then End(clean, target, start) else b
  }

  function Next(clean: string, target: nat, start: nat): (n: nat)
    requires start <= |clean|
    ensures start <= n <= |clean|
  {
    Min(|clean|, Boundary(clean, target, start) + 1)
  }

  // ---------------------------------------------------------------- all cuts

  /** The shards of `clean[start..]` after `cuts` cuts, empty ones included. */
  function Pieces(clean: string, target: nat, start: nat, cuts: nat): (p: seq<string>)
    requires start <= |clean|
    ensures |p| == cuts + 1
    decreases cuts
  {
    if cuts == 0 then [Strip(clean[start..])]
    else [Strip(clean[start..Boundary(clean, target, start)])]
         + Pieces(clean, target, Next(clean, target, start), cuts - 1)
  }

  /** What each cut drops between two shards. */
  function Gaps(clean: string, target: nat, start: nat, cuts: nat): (g: seq<string>)
    requires start <= |clean|
    ensures |g| == cuts
    decreases cuts
  {
    if cuts == 0 then []
    else [clean[Boundary(clean, target, start)..Next(clean, target, start)]]
         + Gaps(clean, target, Next(clean, target, start), cuts - 1)
  }

  /** Where cut number `i` starts. */
  function StartOf(clean: string, target: nat, start: nat, i: nat): (r: nat)
    requires start <= |clean|
    ensures start <= r <= |clean|
    decreases i
  {
    if i == 0 then start else StartOf(clean, target, Next(clean, target, start), i - 1)
  }

  function NonEmpty(ss: seq<string>): seq<string> {
    if ss == [] then [] else (if ss[0] != "" then [ss[0]] else []) + NonEmpty(ss[1..])
  }

  function ShardsOf(clean: string, count: int): seq<string> {
    if count <= 1 || |clean| <= 1 then [clean]
    else NonEmpty(Pieces(clean, Target(|clean|, count), 0, count - 1))
  }

  function Shards(text: string, count: int): seq<string> {
    ShardsOf(Normalized(text), count)
  }

  /** One turn of the loop: the shard it appends and the pieces that remain. */
  lemma PiecesStep(clean: string, target: nat, start: nat, cuts: nat, done: seq<string>)
    requires start <= |clean| && cuts > 0
    ensures done + Pieces(clean, target, start, cuts) ==
            (done + [Strip(clean[start..Boundary(clean, target, start)])])
            + Pieces(clean, target, Next(clean, target, start), cuts - 1)
  {
  }

  lemma PiecesEnd(clean: string, target: nat, start: nat, done: seq<string>)
    requires start <= |clean|
    ensures done + Pieces(clean, target, start, 0) == done + [Strip(clean[start..])]
  {
  }

  method SplitTextForNodes(text: string, count: int) returns (result: seq<string>)
    ensures result == Shards(text, count)
    ensures count <= 1 ==> |result| == 1 && Words(result[0]) == Words(text) && Letters(result[0]) == Letters(text)
    ensures Accounts(result, text)
  {
    ShardsAccountForLetters(text, count);
    var clean := Normalized(text);
    if count <= 1 || |clean| <= 1 {
      NormalizedIsClean(text);
      NormalizingKeepsLetters(text);
      return [clean];
    }
    var shards := CutIntoPieces(clean, Target(|clean|, count), count);
    result := NonEmpty(shards);
  }

  method CutIntoPieces(clean: string, target: nat, count: int) returns (shards: seq<string>)
    requires count >= 1
    ensures shards == Pieces(clean, target, 0, count - 1)
  {
    shards := [];
    var start: nat := 0;
    var index := 0;
    ghost var all := Pieces(clean, target, 0, count - 1);
    while index < count
      invariant 0 <= index < count && start <= |clean|
      invariant shards + Pieces(clean, target, start, count - 1 - index) == all
    {
      if index == count - 1 {
        PiecesEnd(clean, target, start, shards);
        shards := shards + [Strip(clean[start..])];
        break;
      }
      var boundary := CutPoint(clean, target, start);
      PiecesStep(clean, target, start, count - 1 - index, shards);
      shards := shards + [Strip(clean[start..boundary])];
      start := NextStart(clean, target, start, boundary);
      index := index + 1;
    }
  }

  method NextStart(clean: string, target: nat, start: nat, boundary: nat) returns (next: nat)
    requires start <= |clean| && boundary == Boundary(clean, target, start)
    ensures next == Next(clean, target, start)
  {
    next := Min(|clean|, boundary + 1);
  }

  method CutPoint(clean: string, target: nat, start: nat) returns (boundary: nat)
    requires start <= |clean|
    ensures boundary == Boundary(clean, target, start)
    ensures var e := if start + target <= |clean| then start + target else |clean|;
            var w := if e + 200 <= |clean| then e + 200 else |clean|;
            if exists k :: start < k < w && clean[k] == ' '
            then start < boundary < w && clean[boundary] == ' ' && forall k :: boundary < k < w ==> clean[k] != ' '
            else boundary == e
  {
    var end := Min(|clean|, start + target);
    var blank := RFindSpace(clean, start, Min(|clean|, end + SLACK));
    boundary := if blank <= start then end else blank;
  }

  // ---------------------------------------------------------------- accounting

  /** A cut always starts on a character that is not white space, or at the end. */
  predicate GoodStart(clean: string, start: nat) {
    start <= |clean| && (start < |clean| ==> !IsSpace(clean[start]))
  }

  lemma CutIsSafe(clean: string, target: nat, start: nat)
    requires Clean(clean) && target >= 1 && GoodStart(clean, start)
    ensures var b, n := Boundary(clean, target, start), Next(clean, target, start);
            && GoodStart(clean, n)
            && (start < |clean| ==> start < b)
            && Strip(clean[start..b]) == clean[start..b]
            && n - b <= 1 && (n == b ==> n == |clean|)
            && (b < n ==> clean[b] == ' ' || NoSpace(clean, start, WindowEnd(clean, target, start)))
  {
    var w := WindowEnd(clean, target, start);
    var f := RFindSpace(clean, start, w);
    var b := Boundary(clean, target, start);
    if f <= start {
      assert f == -1;
      assert NoSpace(clean, start, w);
    }
    if start < b {
      assert clean[start..b][0] == clean[start];
      assert clean[start..b][b - start - 1] == clean[b - 1];
      assert !IsSpace(clean[b - 1]) by {
        if f > start {
          assert clean[f] == ' ' && IsSpace(clean[f]);
        }
      }
    }
    StripKeeps(clean[start..b]);
    if b + 1 < |clean| && f > start {
      assert IsSpace(clean[b]);
    }
  }

  lemma FinalShardIsSafe(clean: string, start: nat)
    requires Clean(clean) && GoodStart(clean, start)
    ensures Strip(clean[start..]) == clean[start..]
  {
    if start < |clean| {
      assert !IsSpace(clean[|clean| - 1]);
      assert clean[start..][|clean| - start - 1] == clean[|clean| - 1];
    }
    StripKeeps(clean[start..]);
  }

  function Interleave(shards: seq<string>, gaps: seq<string>): string
    requires |shards| == |gaps| + 1
  {
    if gaps == [] then shards[0] else shards[0] + gaps[0] + Interleave(shards[1..], gaps[1..])
  }

  lemma {:induction false} InterleaveFrom(clean: string, target: nat, start: nat, cuts: nat)
    requires Clean(clean) && target >= 1 && GoodStart(clean, start)
    ensures Interleave(Pieces(clean, target, start, cuts), Gaps(clean, target, start, cuts)) == clean[start..]
    decreases cuts
  {
    if cuts == 0 {
      FinalShardIsSafe(clean, start);
    } else {
      CutIsSafe(clean, target, start);
      var b, n := Boundary(clean, target, start), Next(clean, target, start);
      InterleaveFrom(clean, target, n, cuts - 1);
      InterleaveCons(clean[start..b], Pieces(clean, target, n, cuts - 1),
                     clean[b..n], Gaps(clean, target, n, cuts - 1));
      SplitInThree(clean, start, b, n);
    }
  }

  lemma InterleaveCons(shard: string, shards: seq<string>, gap: string, gaps: seq<string>)
    requires |shards| == |gaps| + 1
    ensures Interleave([shard] + shards, [gap] + gaps) == shard + gap + Interleave(shards, gaps)
  {
    assert ([shard] + shards)[1..] == shards && ([gap] + gaps)[1..] == gaps;
  }

  lemma SplitInThree(s: string, i: nat, j: nat, k: nat)
    requires i <= j <= k <= |s|
    ensures s[i..] == s[i..j] + s[j..k] + s[k..]
  {
  }

  /**
   Cut number `i` drops nothing, a blank, or a character of a window without blanks, and
   the shard before it is the text from its start up to what it drops.
   */
  predicate CutIsJustified(clean: string, target: nat, start: nat, cuts: nat, i: nat)
    requires start <= |clean| && i < cuts
  {
    var at := StartOf(clean, target, start, i);
    var gap := Gaps(clean, target, start, cuts)[i];
    && |gap| <= 1
    && (gap == "" || gap == " " || NoSpace(clean, at, WindowEnd(clean, target, at)))
    && Pieces(clean, target, start, cuts)[i] == clean[at..Boundary(clean, target, at)]
  }

  lemma {:induction false} EveryCutIsJustified(clean: string, target: nat, start: nat, cuts: nat, i: nat)
    requires Clean(clean) && target >= 1 && GoodStart(clean, start) && i < cuts
    ensures CutIsJustified(clean, target, start, cuts, i)
    decreases i
  {
    if i == 0 {
      FirstCutIsJustified(clean, target, start, cuts);
    } else {
      NextIsGood(clean, target, start);
      NextIsJustified(clean, target, Next(clean, target, start), cuts, i);
      LaterCutIsJustified(clean, target, start, cuts, i);
    }
  }

  lemma {:induction false} NextIsJustified(clean: string, target: nat, n: nat, cuts: nat, i: nat)
    requires Clean(clean) && target >= 1 && GoodStart(clean, n) && 0 < i < cuts
    ensures CutIsJustified(clean, target, n, cuts - 1, i - 1)
    decreases i, 0
  {
    EveryCutIsJustified(clean, target, n, cuts - 1, i - 1);
  }

  lemma NextIsGood(clean: string, target: nat, start: nat)
    requires Clean(clean) && target >= 1 && GoodStart(clean, start)
    ensures GoodStart(clean, Next(clean, target, start))
  {
    CutIsSafe(clean, target, start);
  }

  lemma LaterCutIsJustified(clean: string, target: nat, start: nat, cuts: nat, i: nat)
    requires start <= |clean| && 0 < i < cuts
    requires CutIsJustified(clean, target, Next(clean, target, start), cuts - 1, i - 1)
    ensures CutIsJustified(clean, target, start, cuts, i)
  {
    var n := Next(clean, target, start);
    assert StartOf(clean, target, start, i) == StartOf(clean, target, n, i - 1);
    assert Gaps(clean, target, start, cuts)[i] == Gaps(clean, target, n, cuts - 1)[i - 1];
    assert Pieces(clean, target, start, cuts)[i] == Pieces(clean, target, n, cuts - 1)[i - 1];
  }

  lemma FirstCutIsJustified(clean: string, target: nat, start: nat, cuts: nat)
    requires Clean(clean) && target >= 1 && GoodStart(clean, start) && cuts > 0
    ensures CutIsJustified(clean, target, start, cuts, 0)
  {
    CutIsSafe(clean, target, start);
    var b, n := Boundary(clean, target, start), Next(clean, target, start);
    if b < n && clean[b] == ' ' {
      assert clean[b..n] == " ";
    }
  }

  /** Every cut starts on a character that is not white space, or at the end. */
  lemma {:induction false} StartsAreGood(clean: string, target: nat, start: nat, i: nat)
    requires Clean(clean) && target >= 1 && GoodStart(clean, start)
    ensures GoodStart(clean, StartOf(clean, target, start, i))
    decreases i
  {
    if i > 0 {
      CutIsSafe(clean, target, start);
      StartsAreGood(clean, target, Next(clean, target, start), i - 1);
    }
  }

  lemma NormalizedIsClean(text: string)
    ensures Clean(Normalized(text)) && GoodStart(Normalized(text), 0)
    ensures Words(Normalized(text)) == Words(text)
  {
    JoinIsClean(Words(text));
    WordsOfJoin(Words(text));
  }

  lemma CleanTextIsAccountedFor(clean: string, target: nat, cuts: nat)
    requires Clean(clean) && GoodStart(clean, 0) && target >= 1
    ensures Interleave(Pieces(clean, target, 0, cuts), Gaps(clean, target, 0, cuts)) == clean
    ensures forall i: nat :: i < cuts ==> CutIsJustified(clean, target, 0, cuts, i)
  {
    InterleaveFrom(clean, target, 0, cuts);
    assert clean[0..] == clean;
    forall i: nat | i < cuts ensures CutIsJustified(clean, target, 0, cuts, i) {
      EveryCutIsJustified(clean, target, 0, cuts, i);
    }
  }

  /**
   Every character is accounted for: the shards, interleaved with one dropped character
   at most per cut, are the normalised text; a dropped character is a blank unless the
   whole window of that cut holds none; and stripping never removes anything.
   */
  lemma EveryCharacterIsAccountedFor(text: string, count: int, cuts: nat)
    requires count == cuts + 1 >= 2 && |Normalized(text)| > 1
    ensures var clean, target := Normalized(text), Target(|Normalized(text)|, count);
            && Shards(text, count) == NonEmpty(Pieces(clean, target, 0, cuts))
            && Interleave(Pieces(clean, target, 0, cuts), Gaps(clean, target, 0, cuts)) == clean
            && forall i: nat :: i < cuts ==> CutIsJustified(clean, target, 0, cuts, i)
    ensures Letters(Normalized(text)) == Letters(text)
  {
    NormalizingKeepsLetters(text);
    NormalizedIsClean(text);
    ShardsAre(Normalized(text), count, cuts);
    CleanTextIsAccountedFor(Normalized(text), Target(|Normalized(text)|, count), cuts);
  }

  /**
   The shards, interleaved with dropped pieces of one character at most, hold every character
   of the text that is not white space, once and in order.  Only empty shards are left out.
   */
  ghost predicate Accounts(result: seq<string>, text: string) {
    exists shards, gaps :: IsAccounting(shards, gaps, result, text)
  }

  ghost predicate IsAccounting(shards: seq<string>, gaps: seq<string>, result: seq<string>, text: string) {
    && |shards| == |gaps| + 1 && (forall i :: 0 <= i < |gaps| ==> |gaps[i]| <= 1)
    && Letters(Interleave(shards, gaps)) == Letters(text)
    && (result == shards || (result <= shards && forall i :: |result| <= i < |shards| ==> shards[i] == ""))
  }

  lemma ShardsAccountForLetters(text: string, count: int)
    ensures Accounts(Shards(text, count), text)
  {
    NormalizedIsClean(text);
    NormalizingKeepsLetters(text);
    CleanShardsAccount(Normalized(text), count, text);
  }

  lemma CleanShardsAccount(clean: string, count: int, text: string)
    requires Clean(clean) && GoodStart(clean, 0) && Letters(clean) == Letters(text)
    ensures Accounts(ShardsOf(clean, count), text)
  {
    if count <= 1 || |clean| <= 1 {
      OneShardAccounts(clean, text);
    } else {
      ShardsAre(clean, count, count - 1);
      PiecesAccount(clean, Target(|clean|, count), count - 1, text);
    }
  }

  lemma OneShardAccounts(clean: string, text: string)
    requires Letters(clean) == Letters(text)
    ensures Accounts([clean], text)
  {
    assert Interleave([clean], []) == clean;
    assert IsAccounting([clean], [], [clean], text);
  }

  lemma PiecesAccount(clean: string, target: nat, cuts: nat, text: string)
    requires Clean(clean) && GoodStart(clean, 0) && target >= 1 && Letters(clean) == Letters(text)
    ensures Accounts(NonEmpty(Pieces(clean, target, 0, cuts)), text)
  {
    var pieces, gaps := Pieces(clean, target, 0, cuts), Gaps(clean, target, 0, cuts);
    CleanTextIsAccountedFor(clean, target, cuts);
    EmptyPiecesComeLast(clean, target, 0, cuts);
    EmptyAfterPrefix(pieces);
    forall i | 0 <= i < |gaps| ensures |gaps[i]| <= 1 {
      assert CutIsJustified(clean, target, 0, cuts, i);
    }
    assert IsAccounting(pieces, gaps, NonEmpty(pieces), text);
  }

  lemma {:induction false} EmptyAfterPrefix(ss: seq<string>)
    requires NonEmpty(ss) <= ss
    ensures forall i :: |NonEmpty(ss)| <= i < |ss| ==> ss[i] == ""
  {
    if ss != [] {
      if ss[0] == "" {
        NonEmptyHasNoEmpty(ss);
        assert NonEmpty(ss) == [];
        NothingInside(ss);
      } else {
        assert NonEmpty(ss)[1..] == NonEmpty(ss[1..]);
        EmptyAfterPrefix(ss[1..]);
        forall i | |NonEmpty(ss)| <= i < |ss| ensures ss[i] == "" {
          assert ss[i] == ss[1..][i - 1];
        }
      }
    }
  }

  lemma {:induction false} NothingInside(ss: seq<string>)
    requires NonEmpty(ss) == []
    ensures forall i :: 0 <= i < |ss| ==> ss[i] == ""
  {
    if ss != [] {
      assert ss[0] == "";
      NothingInside(ss[1..]);
      forall i | 0 <= i < |ss| ensures ss[i] == "" {
        assert i > 0 ==> ss[i] == ss[1..][i - 1];
      }
    }
  }

  // ---------------------------------------------------------------- joining back

  predicate RunsAtMost(clean: string, k: nat) {
    forall i: nat, j: nat :: i <= j <= |clean| && NoSpace(clean, i, j) ==> j - i <= k
  }

  lemma WordBoundGivesRunBound(text: string, k: nat)
    requires forall w :: w in Words(text) ==> |w| <= k
    ensures RunsAtMost(Normalized(text), k)
  {
    forall i: nat, j: nat | i <= j <= |Normalized(text)| && NoSpace(Normalized(text), i, j)
      ensures j - i <= k
    {
      RunsAreShort(Words(text), k, i, j);
    }
  }

  /** With words no longer than the target, a cut drops a blank or takes all that is left. */
  lemma CutAtBlank(clean: string, target: nat, start: nat)
    requires Clean(clean) && target >= 1 && GoodStart(clean, start) && start < |clean|
    requires RunsAtMost(clean, target)
    ensures var b, n := Boundary(clean, target, start), Next(clean, target, start);
            (b == |clean| && n == |clean|) || (b < |clean| - 1 && clean[b] == ' ' && n == b + 1)
  {
    CutIsSafe(clean, target, start);
    var b := Boundary(clean, target, start);
    var w := WindowEnd(clean, target, start);
    if NoSpace(clean, start, w) {
      assert w - start <= target;
      assert b == |clean|;
    }
    if b < |clean| && clean[b] == ' ' {
      assert IsSpace(clean[b]);
    }
  }

  lemma {:induction false} NothingLeft(clean: string, target: nat, cuts: nat)
    ensures NonEmpty(Pieces(clean, target, |clean|, cuts)) == []
    ensures forall i :: 0 <= i <= cuts ==> Pieces(clean, target, |clean|, cuts)[i] == ""
    decreases cuts
  {
    assert clean[|clean|..] == "";
    if cuts > 0 {
      NothingLeft(clean, target, cuts - 1);
      var p := Pieces(clean, target, |clean|, cuts);
      assert p[1..] == Pieces(clean, target, |clean|, cuts - 1);
    }
  }

  lemma NonEmptyCons(s: string, rest: seq<string>)
    requires s != ""
    ensures NonEmpty([s] + rest) == [s] + NonEmpty(rest)
  {
    assert ([s] + rest)[1..] == rest;
  }

  lemma JoinCons(s: string, rest: seq<string>)
    ensures Join([s] + rest) == if rest == [] then s else s + " " + Join(rest)
  {
    assert ([s] + rest)[1..] == rest;
  }

  /** Joining the shards from `start` on gives back the rest of the text. */
  predicate JoinsBack(clean: string, target: nat, start: nat, cuts: nat)
    requires start <= |clean|
  {
    var shards := NonEmpty(Pieces(clean, target, start, cuts));
    Join(shards) == clean[start..]
  }

  /** A cut that finds no blank in its window, and does not reach the end, drops a letter. */
  predicate Lossy(clean: string, target: nat, start: nat)
    requires start <= |clean|
  {
    start < |clean| && End(clean, target, start) < |clean| && NoSpace(clean, start, WindowEnd(clean, target, start))
  }

  /** What a cut does to the rest of the text, lossy or not. */
  lemma CutExactly(clean: string, target: nat, start: nat)
    requires Clean(clean) && target >= 1 && GoodStart(clean, start) && start < |clean|
    ensures var b, n := Boundary(clean, target, start), Next(clean, target, start);
            && start < b && Strip(clean[start..b]) == clean[start..b] && GoodStart(clean, n)
            && (if Lossy(clean, target, start) then b < |clean| && n == b + 1 && clean[b] != ' '
                else if n == |clean| then b == |clean|
                else n == b + 1 && clean[b] == ' ')
  {
    CutIsSafe(clean, target, start);
    var b, w := Boundary(clean, target, start), WindowEnd(clean, target, start);
    if NoSpace(clean, start, w) {
      assert b == End(clean, target, start);
      assert b < |clean| ==> b < w && !IsSpace(clean[b]);
    }
    assert b < |clean| && clean[b] == ' ' ==> IsSpace(clean[b]) && b < |clean| - 1;
  }

  lemma JoinOneMoreExactly(clean: string, target: nat, start: nat, cuts: nat)
    requires Clean(clean) && target >= 1 && GoodStart(clean, start) && start < |clean| && cuts > 0
    requires ShardsLeft(clean, target, Next(clean, target, start), cuts - 1)
    ensures ShardsLeft(clean, target, start, cuts)
    ensures JoinsBack(clean, target, start, cuts) <==>
              !Lossy(clean, target, start) && JoinsBack(clean, target, Next(clean, target, start), cuts - 1)
  {
    CutExactly(clean, target, start);
    var b, n := Boundary(clean, target, start), Next(clean, target, start);
    var rest := NonEmpty(Pieces(clean, target, n, cuts - 1));
    ShardsOneMore(clean, target, start, cuts);
    SplitInThree(clean, start, b, n);
    JoinDecides(clean[start..b], clean[b..n], clean[n..], rest, Lossy(clean, target, start));
  }

  /** Shards are left exactly as long as text is left. */
  predicate ShardsLeft(clean: string, target: nat, start: nat, cuts: nat)
    requires start <= |clean|
  {
    NonEmpty(Pieces(clean, target, start, cuts)) != [] <==> start < |clean|
  }

  lemma ShardsOneMore(clean: string, target: nat, start: nat, cuts: nat)
    requires start <= |clean| && cuts > 0
    requires var shard := clean[start..Boundary(clean, target, start)]; Strip(shard) == shard && shard != ""
    ensures NonEmpty(Pieces(clean, target, start, cuts)) ==
            [clean[start..Boundary(clean, target, start)]]
            + NonEmpty(Pieces(clean, target, Next(clean, target, start), cuts - 1))
  {
    NonEmptyCons(clean[start..Boundary(clean, target, start)],
                 Pieces(clean, target, Next(clean, target, start), cuts - 1));
  }

  lemma JoinDecides(shard: string, gap: string, tail: string, rest: seq<string>, lossy: bool)
    requires rest == [] <==> tail == ""
    requires if lossy then |gap| == 1 && gap != " " else gap == (if tail == "" then "" else " ")
    ensures Join([shard] + rest) == shard + gap + tail <==> !lossy && Join(rest) == tail
  {
    JoinCons(shard, rest);
    GapDecides(shard, gap, tail, Join(rest), rest == []);
  }

  /** Two texts with the same head: the gap must be the separator, and what follows must agree. */
  lemma GapDecides(head: string, gap: string, tail: string, rest: string, last: bool)
    requires |gap| <= 1
    ensures last ==> (head == head + gap + tail <==> gap == "" && tail == "")
    ensures !last && |gap| == 1 ==> (head + " " + rest == head + gap + tail <==> gap == " " && rest == tail)
  {
    var left, right := head + " " + rest, head + gap + tail;
    assert |left| == |head| + 1 + |rest| && |right| == |head| + |gap| + |tail|;
    if |gap| == 1 && left == right {
      assert left[|head|] == ' ' && right[|head|] == gap[0];
      assert left[|head| + 1..] == rest && right[|head| + 1..] == tail;
    }
  }

  lemma JoinNothing(clean: string, target: nat, cuts: nat)
    ensures JoinsBack(clean, target, |clean|, cuts) && ShardsLeft(clean, target, |clean|, cuts)
  {
    NothingLeft(clean, target, cuts);
  }

  lemma JoinLast(clean: string, target: nat, start: nat)
    requires Clean(clean) && GoodStart(clean, start) && start < |clean|
    ensures JoinsBack(clean, target, start, 0) && ShardsLeft(clean, target, start, 0)
  {
    FinalShardIsSafe(clean, start);
    NonEmptyCons(clean[start..], []);
    JoinCons(clean[start..], []);
  }

  /** No cut from `start` on is lossy. */
  ghost predicate NoneLossy(clean: string, target: nat, start: nat, cuts: nat)
    requires start <= |clean|
  {
    forall i: nat :: i < cuts ==> !Lossy(clean, target, StartOf(clean, target, start, i))
  }

  lemma NoneLossyStep(clean: string, target: nat, start: nat, cuts: nat)
    requires start <= |clean| && cuts > 0
    ensures NoneLossy(clean, target, start, cuts) <==>
              !Lossy(clean, target, start) && NoneLossy(clean, target, Next(clean, target, start), cuts - 1)
  {
    var n := Next(clean, target, start);
    assert StartOf(clean, target, start, 0) == start;
    assert forall i: nat :: 0 < i < cuts ==> StartOf(clean, target, start, i) == StartOf(clean, target, n, i - 1);
    if NoneLossy(clean, target, start, cuts) {
      forall i: nat | i < cuts - 1 ensures !Lossy(clean, target, StartOf(clean, target, n, i)) {
        assert !Lossy(clean, target, StartOf(clean, target, start, i + 1));
      }
    }
  }

  lemma {:induction false} StartStays(clean: string, target: nat, i: nat)
    ensures StartOf(clean, target, |clean|, i) == |clean|
  {
    if i > 0 {
      StartStays(clean, target, i - 1);
    }
  }

  /** The shards join back exactly when no cut is lossy. */
  lemma {:induction false} JoinExactly(clean: string, target: nat, start: nat, cuts: nat)
    requires Clean(clean) && target >= 1 && GoodStart(clean, start)
    ensures JoinsBack(clean, target, start, cuts) <==> NoneLossy(clean, target, start, cuts)
    ensures ShardsLeft(clean, target, start, cuts)
    decreases cuts
  {
    if start == |clean| {
      JoinNothing(clean, target, cuts);
      forall i: nat | i < cuts ensures !Lossy(clean, target, StartOf(clean, target, start, i)) {
        StartStays(clean, target, i);
      }
    } else if cuts == 0 {
      JoinLast(clean, target, start);
    } else {
      CutIsSafe(clean, target, start);
      JoinExactly(clean, target, Next(clean, target, start), cuts - 1);
      JoinOneMoreExactly(clean, target, start, cuts);
      NoneLossyStep(clean, target, start, cuts);
    }
  }

  /**
   Joining the shards with blanks restores the text exactly when every cut finds a blank in
   its window or reaches the end.
   */
  lemma ShardsJoinBackExactly(text: string, count: int, cuts: nat)
    requires count == cuts + 1 >= 2 && |Normalized(text)| > 1
    ensures Join(Shards(text, count)) == Normalized(text)
            <==> NoneLossy(Normalized(text), Target(|Normalized(text)|, count), 0, cuts)
  {
    NormalizedIsClean(text);
    var clean, target := Normalized(text), Target(|Normalized(text)|, count);
    var shards := Shards(text, count);
    ShardsAre(clean, count, cuts);
    CleanJoinsBackExactly(clean, target, cuts, shards);
  }

  lemma ShardsAre(clean: string, count: int, cuts: nat)
    requires count == cuts + 1 >= 2 && |clean| > 1
    ensures ShardsOf(clean, count) == NonEmpty(Pieces(clean, Target(|clean|, count), 0, cuts))
  {
  }

  lemma CleanJoinsBackExactly(clean: string, target: nat, cuts: nat, shards: seq<string>)
    requires Clean(clean) && target >= 1 && GoodStart(clean, 0)
    requires shards == NonEmpty(Pieces(clean, target, 0, cuts))
    ensures Join(shards) == clean <==> NoneLossy(clean, target, 0, cuts)
  {
    JoinExactly(clean, target, 0, cuts);
    assert clean[0..] == clean;
  }

  /** A letter is lost, at the smallest input: "ab" for two nodes comes back as "a". */
  lemma LetterIsLost()
    ensures Normalized("ab") == "ab" && Join(Shards("ab", 2)) != "ab"
  {
    assert Join(["ab"]) == "ab";
    WordsOfJoin(["ab"]);
    assert Normalized("ab") == "ab";
    assert Lossy("ab", 1, StartOf("ab", 1, 0, 0));
    ShardsJoinBackExactly("ab", 2, 1);
  }

  lemma ShortRunsLoseNothing(clean: string, target: nat, start: nat)
    requires start <= |clean| && RunsAtMost(clean, target)
    ensures !Lossy(clean, target, start)
  {
    assert start < |clean| && End(clean, target, start) < |clean| ==> WindowEnd(clean, target, start) > start + target;
  }

  /** When every word fits the target, joining the shards with blanks restores the text. */
  lemma ShardsJoinBack(text: string, count: int)
    requires count >= 2 ==>
               forall w :: w in Words(text) ==> |w| <= Target(|Normalized(text)|, count)
    ensures Join(Shards(text, count)) == Normalized(text)
  {
    var clean := Normalized(text);
    if count >= 2 && |clean| > 1 {
      var target := Target(|clean|, count);
      WordBoundGivesRunBound(text, target);
      forall i: nat | i < count - 1 ensures !Lossy(clean, target, StartOf(clean, target, 0, i)) {
        ShortRunsLoseNothing(clean, target, StartOf(clean, target, 0, i));
      }
      ShardsJoinBackExactly(text, count, count - 1);
    } else {
      JoinCons(clean, []);
    }
  }

  // ---------------------------------------------------------------- balance

  lemma {:induction false} EmptyPiecesComeLast(clean: string, target: nat, start: nat, cuts: nat)
    requires Clean(clean) && target >= 1 && GoodStart(clean, start)
    ensures NonEmpty(Pieces(clean, target, start, cuts)) <= Pieces(clean, target, start, cuts)
    decreases cuts
  {
    if start == |clean| {
      NothingLeft(clean, target, cuts);
    } else if cuts == 0 {
      FinalShardIsSafe(clean, start);
    } else {
      CutIsSafe(clean, target, start);
      var b, n := Boundary(clean, target, start), Next(clean, target, start);
      EmptyPiecesComeLast(clean, target, n, cuts - 1);
      PrefixCons(clean[start..b], Pieces(clean, target, n, cuts - 1));
    }
  }

  lemma PrefixCons(s: string, rest: seq<string>)
    requires s != "" && NonEmpty(rest) <= rest
    ensures NonEmpty([s] + rest) <= [s] + rest
  {
    NonEmptyCons(s, rest);
  }

  /** What comes right after the non-empty pieces is empty. */
  lemma {:induction false} NonEmptyStops(ss: seq<string>)
    requires NonEmpty(ss) <= ss && |NonEmpty(ss)| < |ss|
    ensures ss[|NonEmpty(ss)|] == ""
  {
    if ss[0] == "" {
      NonEmptyHasNoEmpty(ss);
    } else {
      assert NonEmpty(ss)[1..] == NonEmpty(ss[1..]);
      NonEmptyStops(ss[1..]);
    }
  }

  /** A cut that leaves nothing behind has found no blank, so it took at most the target. */
  lemma {:induction false} LastCutIsBounded(clean: string, target: nat, start: nat, cuts: nat, i: nat)
    requires Clean(clean) && target >= 1 && GoodStart(clean, start) && i < cuts
    requires IsLastPiece(clean, target, start, cuts, i)
    ensures PieceFits(clean, target, start, cuts, i)
    decreases cuts
  {
    var n := Next(clean, target, start);
    NextIsGood(clean, target, start);
    if i > 0 {
      PieceOfNext(clean, target, start, cuts, i);
      LastCutIsBounded(clean, target, n, cuts - 1, i - 1);
    } else {
      FirstIsLast(clean, target, start, cuts);
    }
  }

  predicate IsLastPiece(clean: string, target: nat, start: nat, cuts: nat, i: nat)
    requires start <= |clean| && i < cuts
  {
    Pieces(clean, target, start, cuts)[i + 1] == ""
  }

  predicate PieceFits(clean: string, target: nat, start: nat, cuts: nat, i: nat)
    requires start <= |clean| && i < cuts
  {
    |Pieces(clean, target, start, cuts)[i]| <= target
  }

  lemma PieceOfNext(clean: string, target: nat, start: nat, cuts: nat, i: nat)
    requires start <= |clean| && 0 < i < cuts
    ensures IsLastPiece(clean, target, start, cuts, i)
            <==> IsLastPiece(clean, target, Next(clean, target, start), cuts - 1, i - 1)
    ensures PieceFits(clean, target, start, cuts, i)
            <==> PieceFits(clean, target, Next(clean, target, start), cuts - 1, i - 1)
  {
    var all, rest := Pieces(clean, target, start, cuts), Pieces(clean, target, Next(clean, target, start), cuts - 1);
    assert all[i] == rest[i - 1] && all[i + 1] == rest[i];
  }

  lemma FirstIsLast(clean: string, target: nat, start: nat, cuts: nat)
    requires Clean(clean) && target >= 1 && GoodStart(clean, start) && cuts > 0
    requires IsLastPiece(clean, target, start, cuts, 0)
    ensures PieceFits(clean, target, start, cuts, 0)
  {
    CutIsSafe(clean, target, start);
    EmptyPieceMeansEnd(clean, target, Next(clean, target, start), cuts - 1);
    CutToTheEnd(clean, target, start);
  }

  lemma EmptyPieceMeansEnd(clean: string, target: nat, start: nat, cuts: nat)
    requires Clean(clean) && target >= 1 && GoodStart(clean, start)
    requires Pieces(clean, target, start, cuts)[0] == ""
    ensures start == |clean|
  {
    CutIsSafe(clean, target, start);
    FinalShardIsSafe(clean, start);
  }

  lemma CutToTheEnd(clean: string, target: nat, start: nat)
    requires Clean(clean) && GoodStart(clean, start) && Next(clean, target, start) == |clean|
    ensures Boundary(clean, target, start) - start <= target
  {
    assert |clean| > 0 ==> !IsSpace(clean[|clean| - 1]);
  }

  lemma {:induction false} CutPiecesAreBounded(clean: string, target: nat, start: nat, cuts: nat, i: nat)
    requires Clean(clean) && target >= 1 && GoodStart(clean, start) && i < cuts
    ensures |Pieces(clean, target, start, cuts)[i]| <= target + SLACK - 1
    decreases cuts
  {
    CutIsSafe(clean, target, start);
    if i > 0 {
      CutPiecesAreBounded(clean, target, Next(clean, target, start), cuts - 1, i - 1);
    }
  }

  /** With words shorter than the slack, a cut never falls short of its target. */
  lemma CutAdvances(clean: string, target: nat, start: nat)
    requires Clean(clean) && target >= 1 && GoodStart(clean, start)
    requires RunsAtMost(clean, target) && RunsAtMost(clean, SLACK - 1)
    ensures var n := Next(clean, target, start);
            || n == |clean|
            || n >= start + target + 1
            || NoSpace(clean, n, |clean|)
  {
    CutIsSafe(clean, target, start);
    var e, w, n := End(clean, target, start), WindowEnd(clean, target, start), Next(clean, target, start);
    var b := Boundary(clean, target, start);
    var f := RFindSpace(clean, start, w);
    if n < |clean| && n < start + target + 1 {
      assert b < e;
      assert f == b;
      assert NoSpace(clean, b + 1, w);
      assert w - (b + 1) <= SLACK - 1;
      assert w == |clean|;
    }
  }

  /** A last word that fits the target is taken whole by the next cut. */
  lemma LastWordIsTaken(clean: string, target: nat, start: nat)
    requires Clean(clean) && target >= 1 && GoodStart(clean, start)
    requires RunsAtMost(clean, target) && NoSpace(clean, start, |clean|)
    ensures |clean| - start <= target
    ensures Next(clean, target, start) == |clean|
  {
    if start < |clean| {
      CutAtBlank(clean, target, start);
    }
  }

  /** A cut that reaches its target leaves no more than the remaining cuts can take. */
  lemma BudgetLeft(cuts: nat, target: nat, left: int, after: int)
    requires cuts > 0
    ensures left <= cuts * (target + 1) + target && after <= left - (target + 1) ==>
              after <= (cuts - 1) * (target + 1) + target
    ensures 0 <= (cuts - 1) * (target + 1)
  {
    assert cuts * (target + 1) == (cuts - 1) * (target + 1) + (target + 1);
  }

  predicate FinalFits(clean: string, target: nat, start: nat, cuts: nat)
    requires start <= |clean|
  {
    |Pieces(clean, target, start, cuts)[cuts]| <= target
  }

  lemma FinalFitsStep(clean: string, target: nat, start: nat, cuts: nat)
    requires start <= |clean| && cuts > 0 && FinalFits(clean, target, Next(clean, target, start), cuts - 1)
    ensures FinalFits(clean, target, start, cuts)
  {
    assert Pieces(clean, target, start, cuts)[cuts]
           == Pieces(clean, target, Next(clean, target, start), cuts - 1)[cuts - 1];
  }

  lemma {:induction false} FinalPieceIsBounded(clean: string, target: nat, start: nat, cuts: nat)
    requires Clean(clean) && target >= 1 && GoodStart(clean, start)
    requires RunsAtMost(clean, target) && RunsAtMost(clean, SLACK - 1)
    requires |clean| - start <= cuts * (target + 1) + target || NoSpace(clean, start, |clean|)
    ensures FinalFits(clean, target, start, cuts)
    decreases cuts
  {
    if NoSpace(clean, start, |clean|) {
      LastWordIsTaken(clean, target, start);
    }
    if cuts == 0 {
      FinalShardIsSafe(clean, start);
    } else {
      var n := Next(clean, target, start);
      CutIsSafe(clean, target, start);
      CutAdvances(clean, target, start);
      BudgetLeft(cuts, target, |clean| - start, |clean| - n);
      FinalPieceIsBounded(clean, target, n, cuts - 1);
      FinalFitsStep(clean, target, start, cuts);
    }
  }

  lemma TargetCoversText(length: nat, count: int)
    requires count >= 2
    ensures length <= (count - 1) * (Target(length, count) + 1) + Target(length, count)
  {
    var q, t := length / count, Target(length, count);
    assert length == count * q + length % count;
    assert t >= q;
    assert count * t >= count * q;
    assert (count - 1) * (t + 1) + t == count * t + count - 1;
  }

  lemma PiecesAreBounded(clean: string, target: nat, cuts: nat)
    requires Clean(clean) && GoodStart(clean, 0) && target >= 1 && |clean| > 0 && cuts > 0
    ensures var pieces := Pieces(clean, target, 0, cuts);
            && NonEmpty(pieces) <= pieces && NonEmpty(pieces) != []
            && forall i: nat :: i < cuts ==> |pieces[i]| <= target + 199
  {
    var pieces := Pieces(clean, target, 0, cuts);
    EmptyPiecesComeLast(clean, target, 0, cuts);
    CutIsSafe(clean, target, 0);
    assert NonEmpty(pieces) == [pieces[0]] + NonEmpty(pieces[1..]);
    forall i: nat | i < cuts ensures |pieces[i]| <= target + 199 {
      CutPiecesAreBounded(clean, target, 0, cuts, i);
    }
  }

  /** The last shard, whether or not it took all the cuts to reach. */
  lemma FinalShardIsBounded(clean: string, target: nat, count: int)
    requires Clean(clean) && GoodStart(clean, 0) && target >= 1 && count >= 2 && |clean| > 0
    requires |clean| <= (count - 1) * (target + 1) + target
    requires RunsAtMost(clean, target) && RunsAtMost(clean, SLACK - 1)
    ensures var shards := NonEmpty(Pieces(clean, target, 0, count - 1));
            shards != [] && |shards[|shards| - 1]| <= target
  {
    var pieces := Pieces(clean, target, 0, count - 1);
    PiecesAreBounded(clean, target, count - 1);
    var k := |NonEmpty(pieces)|;
    if k == count {
      FinalPieceIsBounded(clean, target, 0, count - 1);
    } else {
      NonEmptyStops(pieces);
      LastCutIsBounded(clean, target, 0, count - 1, k - 1);
    }
  }

  /**
   Balance: at most `count` shards; no shard but the last exceeds the target by more than
   199 characters; and if every word fits both the target and the slack, the last shard
   fits the target.
   */
  lemma ShardsAreBalanced(text: string, count: int)
    requires count >= 2 && |Normalized(text)| > 1
    ensures var shards, target := Shards(text, count), Target(|Normalized(text)|, count);
            && 1 <= |shards| <= count
            && (forall i :: 0 <= i < |shards| ==> shards[i] != "")
            && (forall i :: 0 <= i < |shards| && i < count - 1 ==> |shards[i]| <= target + 199)
            && ((forall w :: w in Words(text) ==> |w| <= target && |w| <= 199) ==>
                  |shards[|shards| - 1]| <= target)
  {
    NormalizedIsClean(text);
    var clean := Normalized(text);
    var target := Target(|clean|, count);
    var shards := Shards(text, count);
    ShardsAre(clean, count, count - 1);
    CleanShardsAreBalanced(clean, target, count, shards);
    if forall w :: w in Words(text) ==> |w| <= target && |w| <= 199 {
      ShortWordsBoundFinalShard(text, target, count, shards);
    }
  }

  lemma ShortWordsBoundFinalShard(text: string, target: nat, count: int, shards: seq<string>)
    requires count >= 2 && |Normalized(text)| > 1 && target == Target(|Normalized(text)|, count)
    requires forall w :: w in Words(text) ==> |w| <= target && |w| <= 199
    requires shards == NonEmpty(Pieces(Normalized(text), target, 0, count - 1))
    ensures shards != [] && |shards[|shards| - 1]| <= target
  {
    var clean := Normalized(text);
    NormalizedIsClean(text);
    WordBoundGivesRunBound(text, target);
    WordBoundGivesRunBound(text, 199);
    TargetCoversText(|clean|, count);
    FinalShardIsBounded(clean, target, count);
  }

  lemma CleanShardsAreBalanced(clean: string, target: nat, count: int, shards: seq<string>)
    requires Clean(clean) && GoodStart(clean, 0) && target >= 1 && |clean| > 0 && count >= 2
    requires shards == NonEmpty(Pieces(clean, target, 0, count - 1))
    ensures 1 <= |shards| <= count
    ensures forall i :: 0 <= i < |shards| ==> shards[i] != ""
    ensures forall i :: 0 <= i < |shards| && i < count - 1 ==> |shards[i]| <= target + 199
  {
    PiecesAreBounded(clean, target, count - 1);
    NonEmptyHasNoEmpty(Pieces(clean, target, 0, count - 1));
  }

  lemma {:induction false} NonEmptyHasNoEmpty(ss: seq<string>)
    ensures |NonEmpty(ss)| <= |ss|
    ensures forall i :: 0 <= i < |NonEmpty(ss)| ==> NonEmpty(ss)[i] != ""
  {
    if ss != [] {
      NonEmptyHasNoEmpty(ss[1..]);
    }
  }
}
