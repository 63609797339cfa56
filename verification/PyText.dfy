/** The string operations of Python that apps/services.py relies on. */
module PyText {

  /** The characters that `str.split()` and `str.strip()` treat as white space. */
  predicate IsSpace(c: char) {
    var v := c as int;
    || 9 <= v <= 13 || 0x1c <= v <= 0x20 || v == 0x85 || v == 0xa0 || v == 0x1680
    || 0x2000 <= v <= 0x200a || v == 0x2028 || v == 0x2029 || v == 0x202f || v == 0x205f || v == 0x3000
  }

  predicate NoSpace(s: string, lo: int, hi: int)
    requires 0 <= lo && hi <= |s|
  {
    forall i :: lo <= i < hi ==> !IsSpace(s[i])
  }

  function WordLength(s: string): (k: nat)
    ensures k <= |s| && NoSpace(s, 0, k)
    ensures k < |s| ==> IsSpace(s[k])
  {
    if s == "" || IsSpace(s[0]) then 0 else 1 + WordLength(s[1..])
  }

  /** `s.split()`. */
  function Words(s: string): (ws: seq<string>)
    ensures forall w :: w in ws ==> w != "" && NoSpace(w, 0, |w|)
    decreases |s|
  {
    if s == "" then []
    else if IsSpace(s[0]) then Words(s[1..])
    else
      var k := WordLength(s);
      assert k > 0;
      [s[..k]] + Words(s[k..])
  }

  /** `" ".join(ws)`. */
  function Join(ws: seq<string>): string {
    if ws == [] then "" else if |ws| == 1 then ws[0] else ws[0] + " " + Join(ws[1..])
  }

  function LStrip(s: string): string {
    if s != "" && IsSpace(s[0]) then LStrip(s[1..]) else s
  }

  function RStrip(s: string): string {
    if s != "" && IsSpace(s[|s| - 1]) then RStrip(s[..|s| - 1]) else s
  }

  function Strip(s: string): string {
    RStrip(LStrip(s))
  }

  /** `s.rfind(" ", lo, hi)`. */
  function RFindSpace(s: string, lo: nat, hi: nat): (r: int)
    requires lo <= hi <= |s|
    ensures r == -1 || (lo <= r < hi && s[r] == ' ')
    ensures forall i :: lo <= i < hi && i > r ==> s[i] != ' '
    decreases hi
  {
    if lo == hi then -1 else if s[hi - 1] == ' ' then hi - 1 else RFindSpace(s, lo, hi - 1)
  }

  /** White space occurs only as single blanks between words. */
  predicate Clean(s: string) {
    forall i :: 0 <= i < |s| && IsSpace(s[i]) ==>
                  s[i] == ' ' && 0 < i < |s| - 1 && !IsSpace(s[i - 1]) && !IsSpace(s[i + 1])
  }

  lemma {:induction false} JoinIsClean(ws: seq<string>)
    requires forall w :: w in ws ==> w != "" && NoSpace(w, 0, |w|)
    ensures Clean(Join(ws))
    ensures ws != [] ==> Join(ws) != "" && !IsSpace(Join(ws)[0])
  {
    if |ws| == 1 {
      assert ws[0] in ws;
    } else if |ws| > 1 {
      assert ws[0] in ws;
      JoinIsClean(ws[1..]);
      var w, rest, s := ws[0], Join(ws[1..]), Join(ws);
      assert s == w + " " + rest;
      assert forall i :: 0 <= i < |w| ==> s[i] == w[i];
      forall i | 0 <= i < |s| && IsSpace(s[i])
        ensures s[i] == ' ' && 0 < i < |s| - 1 && !IsSpace(s[i - 1]) && !IsSpace(s[i + 1])
      {
        if i > |w| {
          assert s[i] == rest[i - |w| - 1];
        }
      }
    }
  }

  lemma {:induction false} WordsOfWord(w: string, rest: string)
    requires w != "" && NoSpace(w, 0, |w|)
    requires rest == "" || IsSpace(rest[0])
    ensures WordLength(w + rest) == |w|
  {
    var s := w + rest;
    assert !IsSpace(s[0]) by { assert s[0] == w[0]; }
    if |w| == 1 {
      assert s[1..] == rest;
    } else {
      assert NoSpace(w[1..], 0, |w| - 1) by {
        assert forall i :: 0 <= i < |w| - 1 ==> w[1..][i] == w[i + 1];
      }
      WordsOfWord(w[1..], rest);
      assert s[1..] == w[1..] + rest;
    }
  }

  /** Joining words with blanks and splitting again gives the same words. */
  lemma {:induction false} WordsOfJoin(ws: seq<string>)
    requires forall w :: w in ws ==> w != "" && NoSpace(w, 0, |w|)
    ensures Words(Join(ws)) == ws
  {
    if ws != [] {
      var w, s := ws[0], Join(ws);
      assert w in ws;
      if |ws| == 1 {
        assert s == w + "";
        WordsOfWord(w, "");
        assert s[..|w|] == w && s[|w|..] == "";
      } else {
        var rest := Join(ws[1..]);
        assert s == w + (" " + rest);
        WordsOfWord(w, " " + rest);
        assert s[..|w|] == w && s[|w|..] == " " + rest;
        assert (" " + rest)[1..] == rest;
        WordsOfJoin(ws[1..]);
      }
      assert ws == [w] + ws[1..];
    }
  }

  /** A run without blanks in a joined text lies inside one word. */
  lemma {:induction false} RunsAreShort(ws: seq<string>, k: nat, i: nat, j: nat)
    requires forall w :: w in ws ==> |w| <= k
    requires i <= j <= |Join(ws)| && NoSpace(Join(ws), i, j)
    ensures j - i <= k
  {
    if ws != [] {
      assert ws[0] in ws;
      if |ws| > 1 {
        var w, rest, s := ws[0], Join(ws[1..]), Join(ws);
        assert s == w + " " + rest;
        assert s[|w|] == ' ' && IsSpace(' ');
        if i > |w| {
          var d := |w| + 1;
          assert forall m :: i <= m < j ==> s[m] == rest[m - d];
          assert NoSpace(rest, i - d, j - d) by {
            forall m | i - d <= m < j - d ensures !IsSpace(rest[m]) { assert rest[m] == s[m + d]; }
          }
          RunsAreShort(ws[1..], k, i - d, j - d);
        }
      }
    }
  }

  lemma StripKeeps(s: string)
    requires s != "" ==> !IsSpace(s[0]) && !IsSpace(s[|s| - 1])
    ensures Strip(s) == s
  {
  }
}
