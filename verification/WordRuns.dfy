/**
 What `str.split()` takes from any text: its words are the maximal runs without white space,
 in order, so they hold every other character exactly once.
 */
module WordRuns {
  import opened PyText

  // ---------------------------------------------------------------- no character is lost

  /** The characters of a text that are not white space, in order. */
  function Letters(s: string): string {
    if s == "" then "" else (if IsSpace(s[0]) then "" else [s[0]]) + Letters(s[1..])
  }

  function Concatenated(ws: seq<string>): string {
    if ws == [] then "" else ws[0] + Concatenated(ws[1..])
  }

  lemma {:induction false} LettersAppend(a: string, b: string)
    ensures Letters(a + b) == Letters(a) + Letters(b)
  {
    if a == "" {
      assert a + b == b;
    } else {
      assert (a + b)[0] == a[0] && (a + b)[1..] == a[1..] + b;
      LettersAppend(a[1..], b);
    }
  }

  lemma {:induction false} LettersOfWord(w: string)
    requires NoSpace(w, 0, |w|)
    ensures Letters(w) == w
  {
    if w != "" {
      assert NoSpace(w[1..], 0, |w| - 1) by {
        assert forall i :: 0 <= i < |w| - 1 ==> w[1..][i] == w[i + 1];
      }
      LettersOfWord(w[1..]);
      assert w == [w[0]] + w[1..];
    }
  }

  /** Splitting loses, repeats and reorders nothing but white space. */
  lemma {:induction false} WordsKeepLetters(s: string)
    ensures Concatenated(Words(s)) == Letters(s)
    decreases |s|
  {
    if s != "" {
      if IsSpace(s[0]) {
        WordsKeepLetters(s[1..]);
      } else {
        var k := WordLength(s);
        WordsKeepLetters(s[k..]);
        LettersOfWord(s[..k]);
        LettersAppend(s[..k], s[k..]);
        assert s == s[..k] + s[k..];
        ConcatenatedCons(s[..k], Words(s[k..]));
      }
    }
  }

  lemma ConcatenatedCons(w: string, ws: seq<string>)
    ensures Concatenated([w] + ws) == w + Concatenated(ws)
  {
    assert ([w] + ws)[1..] == ws;
  }

  lemma {:induction false} LettersOfJoin(ws: seq<string>)
    requires forall w :: w in ws ==> NoSpace(w, 0, |w|)
    ensures Letters(Join(ws)) == Concatenated(ws)
  {
    if ws != [] {
      assert ws[0] in ws;
      if |ws| == 1 {
        LettersOfWord(ws[0]);
      } else {
        LettersOfJoin(ws[1..]);
        LettersOfNext(ws[0], Join(ws[1..]));
      }
    }
  }

  lemma LettersOfNext(w: string, rest: string)
    requires NoSpace(w, 0, |w|)
    ensures Letters(w + " " + rest) == w + Letters(rest)
  {
    LettersAppend(w + " ", rest);
    LettersBeforeBlank(w);
  }

  lemma LettersBeforeBlank(w: string)
    requires NoSpace(w, 0, |w|)
    ensures Letters(w + " ") == w
  {
    LettersAppend(w, " ");
    LettersOfWord(w);
    LettersOfBlank();
  }

  lemma LettersOfBlank()
    ensures Letters(" ") == ""
  {
    assert IsSpace(' ') && " "[1..] == "";
  }

  /** Normalising keeps every character that is not white space. */
  lemma NormalizingKeepsLetters(s: string)
    ensures Letters(Join(Words(s))) == Letters(s)
  {
    WordsKeepLetters(s);
    LettersOfJoin(Words(s));
  }

  // ---------------------------------------------------------------- words are maximal runs

  /** A stretch without white space, with white space or an end of the text on either side. */
  predicate MaximalRun(s: string, lo: int, hi: int) {
    && 0 <= lo < hi <= |s| && NoSpace(s, lo, hi)
    && (lo > 0 ==> IsSpace(s[lo - 1])) && (hi < |s| ==> IsSpace(s[hi]))
  }

  predicate IsRunAt(s: string, w: string, run: (int, int)) {
    MaximalRun(s, run.0, run.1) && w == s[run.0..run.1]
  }

  predicate Covers(runs: seq<(int, int)>, p: int) {
    exists k :: 0 <= k < |runs| && runs[k].0 <= p < runs[k].1
  }

  /** The words are these runs of `s`, one by one, and the runs leave only white space out. */
  ghost predicate AreRuns(s: string, ws: seq<string>, runs: seq<(int, int)>) {
    && |runs| == |ws|
    && (forall k :: 0 <= k < |ws| ==> IsRunAt(s, ws[k], runs[k]))
    && (forall k, l :: 0 <= k < l < |runs| ==> runs[k].1 < runs[l].0)
    && (forall p :: 0 <= p < |s| && !IsSpace(s[p]) ==> Covers(runs, p))
  }

  function Shifted(runs: seq<(int, int)>, d: nat): (r: seq<(int, int)>)
    ensures |r| == |runs|
    ensures forall k :: 0 <= k < |r| ==> r[k] == (runs[k].0 + d, runs[k].1 + d)
  {
    if runs == [] then [] else [(runs[0].0 + d, runs[0].1 + d)] + Shifted(runs[1..], d)
  }

  lemma ShiftedRun(s: string, d: nat, w: string, run: (int, int))
    requires d <= |s| && IsRunAt(s[d..], w, run) && (run.0 > 0 || d == 0 || IsSpace(s[d - 1]))
    ensures IsRunAt(s, w, (run.0 + d, run.1 + d))
  {
    var t := s[d..];
    assert forall i :: 0 <= i < |t| ==> t[i] == s[i + d];
    forall i | run.0 + d <= i < run.1 + d ensures !IsSpace(s[i]) {
      assert !IsSpace(t[i - d]);
    }
    assert w == s[run.0 + d..run.1 + d];
  }

  lemma ShiftedCovers(runs: seq<(int, int)>, d: nat, p: int)
    requires Covers(runs, p)
    ensures Covers(Shifted(runs, d), p + d)
  {
    var k :| 0 <= k < |runs| && runs[k].0 <= p < runs[k].1;
    assert Shifted(runs, d)[k].0 <= p + d < Shifted(runs, d)[k].1;
  }

  /** Every word is a maximal run, and every maximal run is a word. */
  lemma {:induction false} WordsAreRuns(s: string) returns (runs: seq<(int, int)>)
    ensures AreRuns(s, Words(s), runs)
    decreases |s|
  {
    if s == "" {
      runs := [];
    } else if IsSpace(s[0]) {
      var rest := WordsAreRuns(s[1..]);
      runs := Shifted(rest, 1);
      RunsAfterSpace(s, Words(s[1..]), rest);
    } else {
      var k := WordLength(s);
      var rest := WordsAreRuns(s[k..]);
      runs := [(0, k)] + Shifted(rest, k);
      RunsAfterWord(s, k, Words(s[k..]), rest);
    }
  }

  lemma RunsAfterSpace(s: string, ws: seq<string>, rest: seq<(int, int)>)
    requires s != "" && IsSpace(s[0]) && AreRuns(s[1..], ws, rest)
    ensures AreRuns(s, ws, Shifted(rest, 1))
  {
    OneSpaceBefore(s, ws, rest);
    CoveredLater(s, 1, ws, rest);
  }

  lemma OneSpaceBefore(s: string, ws: seq<string>, rest: seq<(int, int)>)
    requires s != "" && IsSpace(s[0]) && |rest| == |ws|
    requires forall k :: 0 <= k < |ws| ==> IsRunAt(s[1..], ws[k], rest[k])
    ensures forall k :: 0 <= k < |ws| ==> IsRunAt(s, ws[k], Shifted(rest, 1)[k])
    ensures forall p :: 0 <= p < |s| && !IsSpace(s[p]) ==> p >= 1
  {
    forall k | 0 <= k < |ws| ensures IsRunAt(s, ws[k], (rest[k].0 + 1, rest[k].1 + 1)) {
      ShiftedRun(s, 1, ws[k], rest[k]);
    }
  }

  lemma RunsAfterWord(s: string, n: nat, ws: seq<string>, rest: seq<(int, int)>)
    requires 0 < n <= |s| && NoSpace(s, 0, n) && (n < |s| ==> IsSpace(s[n])) && AreRuns(s[n..], ws, rest)
    ensures AreRuns(s, [s[..n]] + ws, [(0, n)] + Shifted(rest, n))
  {
    RunsLater(s, n, ws, rest);
    CoveredLater(s, n, ws, rest);
    assert IsRunAt(s, s[..n], (0, n));
    OneRunBefore(s, s[..n], n, ws, Shifted(rest, n));
  }

  lemma RunsLater(s: string, n: nat, ws: seq<string>, rest: seq<(int, int)>)
    requires 0 < n <= |s| && (n < |s| ==> IsSpace(s[n])) && AreRuns(s[n..], ws, rest)
    ensures forall k :: 0 <= k < |ws| ==> Shifted(rest, n)[k].0 > n && IsRunAt(s, ws[k], Shifted(rest, n)[k])
    ensures forall k, l :: 0 <= k < l < |rest| ==> Shifted(rest, n)[k].1 < Shifted(rest, n)[l].0
  {
    forall k | 0 <= k < |ws| ensures rest[k].0 > 0 && IsRunAt(s, ws[k], (rest[k].0 + n, rest[k].1 + n)) {
      RunAfterWord(s, n, ws[k], rest[k]);
    }
  }

  lemma CoveredLater(s: string, n: nat, ws: seq<string>, rest: seq<(int, int)>)
    requires n <= |s| && AreRuns(s[n..], ws, rest)
    ensures forall p :: n <= p < |s| && !IsSpace(s[p]) ==> Covers(Shifted(rest, n), p)
  {
    forall p | n <= p < |s| && !IsSpace(s[p]) ensures Covers(Shifted(rest, n), p) {
      assert s[n..][p - n] == s[p];
      ShiftedCovers(rest, n, p - n);
    }
  }

  lemma RunAfterWord(s: string, n: nat, w: string, run: (int, int))
    requires 0 < n <= |s| && (n < |s| ==> IsSpace(s[n])) && IsRunAt(s[n..], w, run)
    ensures run.0 > 0 && IsRunAt(s, w, (run.0 + n, run.1 + n))
  {
    assert n < |s| ==> s[n..][0] == s[n];
    assert forall i :: run.0 <= i < run.1 ==> !IsSpace(s[n..][i]);
    ShiftedRun(s, n, w, run);
  }

  lemma OneRunBefore(s: string, w: string, n: nat, ws: seq<string>, later: seq<(int, int)>)
    requires IsRunAt(s, w, (0, n)) && |later| == |ws|
    requires forall k :: 0 <= k < |ws| ==> later[k].0 > n && IsRunAt(s, ws[k], later[k])
    requires forall k, l :: 0 <= k < l < |later| ==> later[k].1 < later[l].0
    requires forall p :: n <= p < |s| && !IsSpace(s[p]) ==> Covers(later, p)
    ensures AreRuns(s, [w] + ws, [(0, n)] + later)
  {
    var all, words := [(0, n)] + later, [w] + ws;
    forall k | 0 <= k < |words| ensures IsRunAt(s, words[k], all[k]) {
      assert k > 0 ==> words[k] == ws[k - 1] && all[k] == later[k - 1];
    }
    forall p | 0 <= p < |s| && !IsSpace(s[p]) ensures Covers(all, p) {
      if p < n {
        assert all[0].0 <= p < all[0].1;
      } else {
        var k :| 0 <= k < |later| && later[k].0 <= p < later[k].1;
        assert all[k + 1] == later[k];
      }
    }
  }

  // ---------------------------------------------------------------- stripping

  /** `strip` takes white space off both ends, all of it, and nothing else. */
  lemma {:induction false} StripTakesEnds(s: string) returns (lo: nat, hi: nat)
    ensures lo <= hi <= |s| && Strip(s) == s[lo..hi]
    ensures forall i :: 0 <= i < lo || hi <= i < |s| ==> IsSpace(s[i])
    ensures lo < hi ==> !IsSpace(s[lo]) && !IsSpace(s[hi - 1])
  {
    lo := LStripAt(s);
    var t := s[lo..];
    var n := RStripAt(t);
    hi := lo + n;
    assert t[..n] == s[lo..hi];
    forall i | hi <= i < |s| ensures IsSpace(s[i]) {
      assert t[i - lo] == s[i];
    }
    if lo < hi {
      assert t[0] == s[lo] && t[n - 1] == s[hi - 1];
    }
  }

  lemma {:induction false} LStripAt(s: string) returns (lo: nat)
    ensures lo <= |s| && LStrip(s) == s[lo..]
    ensures forall i :: 0 <= i < lo ==> IsSpace(s[i])
    ensures lo < |s| ==> !IsSpace(s[lo])
  {
    if s != "" && IsSpace(s[0]) {
      var n := LStripAt(s[1..]);
      lo := n + 1;
      assert s[1..][n..] == s[lo..];
      forall i | 0 <= i < lo ensures IsSpace(s[i]) {
        assert i > 0 ==> s[1..][i - 1] == s[i];
      }
    } else {
      lo := 0;
    }
  }

  lemma {:induction false} RStripAt(s: string) returns (n: nat)
    ensures n <= |s| && RStrip(s) == s[..n]
    ensures forall i :: n <= i < |s| ==> IsSpace(s[i])
    ensures n > 0 ==> !IsSpace(s[n - 1])
    decreases |s|
  {
    if s != "" && IsSpace(s[|s| - 1]) {
      n := RStripAt(s[..|s| - 1]);
      assert s[..|s| - 1][..n] == s[..n];
    } else {
      n := |s|;
    }
  }
}
