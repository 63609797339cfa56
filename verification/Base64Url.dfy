/**
 Base64 with the URL-safe alphabet (RFC 4648, sections 4 and 5), as the cursor
 functions of apps/internal_graphs_live.py use it: the encoder groups three bytes
 into four characters, and the decoder is the lenient scanner of the Python
 library, which skips characters outside the alphabet, takes the standard alphabet
 as well as the URL-safe one, and stops at the padding.
 */
module Base64Url {
  import opened Options

  type Byte = x: int | 0 <= x < 256

  function Symbol(v: int): char
    requires 0 <= v < 64
  {
    if v < 26 then 'A' + (v as char)
    else if v < 52 then 'a' + ((v - 26) as char)
    else if v < 62 then '0' + ((v - 52) as char)
    else if v == 62 then '-'
    else '_'
  }

  function SymbolValue(c: char): (r: Option<int>)
    ensures r.Some? ==> 0 <= r.value < 64
  {
    if 'A' <= c <= 'Z' then Some(c as int - 'A' as int)
    else if 'a' <= c <= 'z' then Some(c as int - 'a' as int + 26)
    else if '0' <= c <= '9' then Some(c as int - '0' as int + 52)
    else if c == '-' || c == '+' then Some(62)
    else if c == '_' || c == '/' then Some(63)
    else None
  }

  predicate UrlSafe(c: char) {
    'A' <= c <= 'Z' || 'a' <= c <= 'z' || '0' <= c <= '9' || c == '-' || c == '_'
  }

  lemma SymbolValueInvertsSymbol(v: int)
    requires 0 <= v < 64
    ensures SymbolValue(Symbol(v)) == Some(v) && UrlSafe(Symbol(v))
  {
  }

  // ---------------------------------------------------------------- encoding

  /** `urlsafe_b64encode`: groups of four characters, the last one padded with '='. */
  function Encode(bs: seq<Byte>): string {
    if |bs| == 0 then ""
    else if |bs| == 1 then
      [Symbol(bs[0] / 4), Symbol(bs[0] % 4 * 16), '=', '=']
    else if |bs| == 2 then
      [Symbol(bs[0] / 4), Symbol(bs[0] % 4 * 16 + bs[1] / 16), Symbol(bs[1] % 16 * 4), '=']
    else
      Group(bs[0], bs[1], bs[2]) + Encode(bs[3..])
  }

  function Group(x: Byte, y: Byte, z: Byte): string {
    [Symbol(x / 4), Symbol(x % 4 * 16 + y / 16), Symbol(y % 16 * 4 + z / 64), Symbol(z % 64)]
  }

  /** `rstrip("=")`. */
  function StripPadding(s: string): string {
    if s != "" && s[|s| - 1] == '=' then StripPadding(s[..|s| - 1]) else s
  }

  /** `"=" * (-len % 4)`. */
  function Padding(len: int): string {
    seq((-len) % 4, _ => '=')
  }

  // ---------------------------------------------------------------- decoding

  /**
   The scanner: `quad` characters of the current group have been read, `left` holds
   the bits of the last one that no byte has used yet, and `pads` counts the padding
   seen since the last character of the alphabet.
   */
  function Scan(s: string, quad: nat, left: int, pads: nat): Option<seq<Byte>>
    requires quad < 4
    requires (quad == 1 ==> 0 <= left < 64) && (quad == 2 ==> 0 <= left < 16) && (quad == 3 ==> 0 <= left < 4)
  {
    if s == "" then (if quad == 0 then Some([]) else None)
    else if s[0] == '=' then
      if quad >= 2 && quad + pads + 1 >= 4 then Some([])
      else Scan(s[1..], quad, left, if quad >= 2 then pads + 1 else pads)
    else
      match SymbolValue(s[0])
      case None => Scan(s[1..], quad, left, pads)
      case Some(v) =>
        if quad == 0 then Scan(s[1..], 1, v, 0)
        else if quad == 1 then
          var rest :- Scan(s[1..], 2, v % 16, 0);
          Some([left * 4 + v / 16] + rest)
        else if quad == 2 then
          var rest :- Scan(s[1..], 3, v % 4, 0);
          Some([left * 16 + v / 4] + rest)
        else
          var rest :- Scan(s[1..], 0, 0, 0);
          Some([left * 64 + v] + rest)
  }

  /** `urlsafe_b64decode` on a string: text outside ASCII is an error. */
  function Decode(s: string): Option<seq<Byte>> {
    if forall i :: 0 <= i < |s| ==> s[i] as int < 128 then Scan(s, 0, 0, 0) else None
  }

  // ---------------------------------------------------------------- properties

  /** What one data character does to the scanner. */
  lemma ScanSymbol(v: int, rest: string, quad: nat, left: int, pads: nat)
    requires 0 <= v < 64 && quad < 4
    requires (quad == 1 ==> 0 <= left < 64) && (quad == 2 ==> 0 <= left < 16) && (quad == 3 ==> 0 <= left < 4)
    ensures Scan([Symbol(v)] + rest, quad, left, pads) ==
            if quad == 0 then Scan(rest, 1, v, 0)
            else if quad == 1 then Prepend(left * 4 + v / 16, Scan(rest, 2, v % 16, 0))
            else if quad == 2 then Prepend(left * 16 + v / 4, Scan(rest, 3, v % 4, 0))
            else Prepend(left * 64 + v, Scan(rest, 0, 0, 0))
  {
    SymbolValueInvertsSymbol(v);
    var s := [Symbol(v)] + rest;
    assert s[0] == Symbol(v) && s[1..] == rest;
    assert Symbol(v) != '=';
  }

  function Prepend(b: Byte, r: Option<seq<Byte>>): Option<seq<Byte>> {
    if r.None? then None else Some([b] + r.value)
  }

  lemma RejoinBytes(x: Byte, y: Byte, z: Byte)
    ensures x / 4 * 4 + (x % 4 * 16 + y / 16) / 16 == x
    ensures (x % 4 * 16 + y / 16) % 16 * 16 + (y % 16 * 4 + z / 64) / 4 == y
    ensures (y % 16 * 4 + z / 64) % 4 * 64 + z % 64 == z
  {
  }

  /** Four data characters bring the scanner back between groups, three bytes later. */
  lemma ScanFour(v0: int, v1: int, v2: int, v3: int, rest: string)
    requires 0 <= v0 < 64 && 0 <= v1 < 64 && 0 <= v2 < 64 && 0 <= v3 < 64
    ensures Scan([Symbol(v0)] + ([Symbol(v1)] + ([Symbol(v2)] + ([Symbol(v3)] + rest))), 0, 0, 0) ==
            Prepend(v0 * 4 + v1 / 16, Prepend(v1 % 16 * 16 + v2 / 4, Prepend(v2 % 4 * 64 + v3, Scan(rest, 0, 0, 0))))
  {
    var s3 := [Symbol(v3)] + rest;
    var s2 := [Symbol(v2)] + s3;
    var s1 := [Symbol(v1)] + s2;
    ScanSymbol(v3, rest, 3, v2 % 4, 0);
    ScanSymbol(v2, s3, 2, v1 % 16, 0);
    ScanSymbol(v1, s2, 1, v0, 0);
    ScanSymbol(v0, s1, 0, 0, 0);
  }

  /** The scanner reads one full group and is back between groups. */
  lemma ScanGroup(x: Byte, y: Byte, z: Byte, rest: string)
    ensures Scan(Group(x, y, z) + rest, 0, 0, 0) == Prepend(x, Prepend(y, Prepend(z, Scan(rest, 0, 0, 0))))
  {
    var v0, v1, v2, v3 := x / 4, x % 4 * 16 + y / 16, y % 16 * 4 + z / 64, z % 64;
    RejoinBytes(x, y, z);
    ScanFour(v0, v1, v2, v3, rest);
    GroupText(x, y, z, rest);
  }

  lemma GroupText(x: Byte, y: Byte, z: Byte, rest: string)
    ensures Group(x, y, z) + rest ==
            [Symbol(x / 4)] + ([Symbol(x % 4 * 16 + y / 16)]
            + ([Symbol(y % 16 * 4 + z / 64)] + ([Symbol(z % 64)] + rest)))
  {
  }

  lemma ScanTailOne(x: Byte)
    ensures Scan(Encode([x]), 0, 0, 0) == Some([x])
  {
    var v0, v1 := x / 4, x % 4 * 16;
    RejoinBytes(x, 0, 0);
    var s2 := ['=', '='];
    var s1 := [Symbol(v1)] + s2;
    assert s2[1..] == ['='];
    assert Scan(['='], 2, v1 % 16, 1) == Some([]);
    assert Scan(s2, 2, v1 % 16, 0) == Some([]);
    ScanSymbol(v1, s2, 1, v0, 0);
    ScanSymbol(v0, s1, 0, 0, 0);
    assert Encode([x]) == [Symbol(v0)] + s1;
    assert [x] + [] == [x];
  }

  lemma ScanTailTwo(x: Byte, y: Byte)
    ensures Scan(Encode([x, y]), 0, 0, 0) == Some([x, y])
  {
    var v0, v1, v2 := x / 4, x % 4 * 16 + y / 16, y % 16 * 4;
    RejoinBytes(x, y, 0);
    ScanThree(v0, v1, v2);
    assert Encode([x, y]) == [Symbol(v0)] + ([Symbol(v1)] + ([Symbol(v2)] + ['=']));
    assert [x] + ([y] + []) == [x, y];
  }

  lemma ScanThree(v0: int, v1: int, v2: int)
    requires 0 <= v0 < 64 && 0 <= v1 < 64 && 0 <= v2 < 64
    ensures Scan([Symbol(v0)] + ([Symbol(v1)] + ([Symbol(v2)] + ['='])), 0, 0, 0) ==
            Prepend(v0 * 4 + v1 / 16, Prepend(v1 % 16 * 16 + v2 / 4, Some([])))
  {
    var s3 := ['='];
    var s2 := [Symbol(v2)] + s3;
    var s1 := [Symbol(v1)] + s2;
    assert Scan(s3, 3, v2 % 4, 0) == Some([]);
    ScanSymbol(v2, s3, 2, v1 % 16, 0);
    ScanSymbol(v1, s2, 1, v0, 0);
    ScanSymbol(v0, s1, 0, 0, 0);
  }

  /** Decoding undoes encoding, for every byte string. */
  lemma {:induction false} ScanInvertsEncode(bs: seq<Byte>)
    ensures Scan(Encode(bs), 0, 0, 0) == Some(bs)
  {
    if |bs| == 0 {
    } else if |bs| == 1 {
      assert bs == [bs[0]];
      ScanTailOne(bs[0]);
    } else if |bs| == 2 {
      assert bs == [bs[0], bs[1]];
      ScanTailTwo(bs[0], bs[1]);
    } else {
      ScanInvertsEncode(bs[3..]);
      ScanGroup(bs[0], bs[1], bs[2], Encode(bs[3..]));
      assert [bs[0]] + ([bs[1]] + ([bs[2]] + bs[3..])) == bs;
    }
  }

  /** Number of characters that carry data: never one more than a multiple of four. */
  function DataLength(n: nat): nat {
    (4 * n + 2) / 3
  }

  lemma DataLengthMod(n: nat)
    ensures DataLength(n) % 4 != 1
    ensures DataLength(n) + (0 - DataLength(n)) % 4 == 4 * ((n + 2) / 3)
  {
    var q, r := n / 3, n % 3;
    var k := if r == 0 then 0 else r + 1;
    assert DataLength(n) == 4 * q + k;
    assert (n + 2) / 3 == q + (if r == 0 then 0 else 1);
    QuadRemainder(q, k);
  }

  lemma QuadRemainder(q: nat, k: nat)
    requires k < 4
    ensures (4 * q + k) % 4 == k
    ensures (0 - (4 * q + k)) % 4 == if k == 0 then 0 else 4 - k
  {
    assert 0 - (4 * q + k) == if k == 0 then 4 * (0 - q) else 4 * (0 - q - 1) + (4 - k);
  }

  /** `n` URL-safe characters and then padding only. */
  predicate IsPadded(s: string, n: nat) {
    && n <= |s|
    && (forall i :: 0 <= i < n ==> UrlSafe(s[i]))
    && (forall i :: n <= i < |s| ==> s[i] == '=')
  }

  /** The encoding is its URL-safe data characters followed by the padding alone. */
  lemma {:induction false} EncodeShape(bs: seq<Byte>)
    ensures |Encode(bs)| == 4 * ((|bs| + 2) / 3)
    ensures IsPadded(Encode(bs), DataLength(|bs|))
  {
    if |bs| == 0 {
    } else if |bs| == 1 {
      ShapeOfOne(bs);
    } else if |bs| == 2 {
      ShapeOfTwo(bs);
    } else {
      EncodeShape(bs[3..]);
      ShapeOfGroup(bs[0], bs[1], bs[2], Encode(bs[3..]), |bs| - 3);
    }
  }

  lemma ShapeOfGroup(x: Byte, y: Byte, z: Byte, rest: string, n: nat)
    requires |rest| == 4 * ((n + 2) / 3) && IsPadded(rest, DataLength(n))
    ensures |Group(x, y, z) + rest| == 4 * ((n + 5) / 3) && IsPadded(Group(x, y, z) + rest, DataLength(n + 3))
  {
    GroupIsUrlSafe(x, y, z);
    assert DataLength(n + 3) == DataLength(n) + 4;
    ShapeOfConcatenation(Group(x, y, z), rest, DataLength(n));
  }

  lemma ShapeOfOne(bs: seq<Byte>)
    requires |bs| == 1
    ensures |Encode(bs)| == 4 && IsPadded(Encode(bs), 2)
  {
    SymbolIsUrlSafe(bs[0] / 4);
    SymbolIsUrlSafe(bs[0] % 4 * 16);
  }

  lemma ShapeOfTwo(bs: seq<Byte>)
    requires |bs| == 2
    ensures |Encode(bs)| == 4 && IsPadded(Encode(bs), 3)
  {
    SymbolIsUrlSafe(bs[0] / 4);
    SymbolIsUrlSafe(bs[0] % 4 * 16 + bs[1] / 16);
    SymbolIsUrlSafe(bs[1] % 16 * 4);
  }

  lemma SymbolIsUrlSafe(v: int)
    requires 0 <= v < 64
    ensures UrlSafe(Symbol(v))
  {
    SymbolValueInvertsSymbol(v);
  }

  lemma GroupIsUrlSafe(x: Byte, y: Byte, z: Byte)
    ensures forall i :: 0 <= i < 4 ==> UrlSafe(Group(x, y, z)[i])
  {
    SymbolIsUrlSafe(x / 4);
    SymbolIsUrlSafe(x % 4 * 16 + y / 16);
    SymbolIsUrlSafe(y % 16 * 4 + z / 64);
    SymbolIsUrlSafe(z % 64);
  }

  lemma ShapeOfConcatenation(head: string, tail: string, n: nat)
    requires IsPadded(tail, n) && forall i :: 0 <= i < |head| ==> UrlSafe(head[i])
    ensures IsPadded(head + tail, |head| + n)
  {
  }

  lemma {:induction false} StripPaddingAt(s: string, n: nat)
    requires n <= |s|
    requires forall i :: n <= i < |s| ==> s[i] == '='
    requires n == 0 || s[n - 1] != '='
    ensures StripPadding(s) == s[..n]
    decreases |s|
  {
    if n == |s| {
      assert s[..n] == s;
    } else {
      var t := s[..|s| - 1];
      StripPaddingAt(t, n);
      assert t[..n] == s[..n];
    }
  }

  /**
   `-len % 4` restores exactly the padding that `rstrip("=")` removed: the stripped
   text is URL-safe, its length is never 1 mod 4, and it decodes after re-padding.
   */
  lemma PaddingRestored(bs: seq<Byte>)
    ensures |StripPadding(Encode(bs))| == DataLength(|bs|) && DataLength(|bs|) % 4 != 1
    ensures forall i :: 0 <= i < DataLength(|bs|) ==> UrlSafe(StripPadding(Encode(bs))[i])
    ensures StripPadding(Encode(bs)) + Padding(DataLength(|bs|)) == Encode(bs)
    ensures Decode(StripPadding(Encode(bs)) + Padding(DataLength(|bs|))) == Some(bs)
  {
    var e, n := Encode(bs), DataLength(|bs|);
    StrippedEncoding(bs);
    DataLengthMod(|bs|);
    EncodingIsAscii(bs);
    ScanInvertsEncode(bs);
    assert e == e[..n] + Padding(n) by {
      PaddingSplits(bs);
    }
  }

  lemma PaddingText(n: nat)
    ensures |Padding(n)| == (0 - n) % 4 && forall i :: 0 <= i < |Padding(n)| ==> Padding(n)[i] == '='
  {
  }

  lemma PaddingSplits(bs: seq<Byte>)
    ensures DataLength(|bs|) <= |Encode(bs)|
    ensures Encode(bs) == Encode(bs)[..DataLength(|bs|)] + Padding(DataLength(|bs|))
  {
    var e, n := Encode(bs), DataLength(|bs|);
    EncodeShape(bs);
    DataLengthMod(|bs|);
    var p := Padding(n);
    PaddingText(n);
    forall i | 0 <= i < |e| ensures e[i] == (e[..n] + p)[i] {
      if i >= n {
        assert p[i - n] == '=';
      }
    }
  }

  lemma StrippedEncoding(bs: seq<Byte>)
    ensures DataLength(|bs|) <= |Encode(bs)|
    ensures StripPadding(Encode(bs)) == Encode(bs)[..DataLength(|bs|)]
    ensures forall i :: 0 <= i < DataLength(|bs|) ==> UrlSafe(Encode(bs)[i])
  {
    EncodeShape(bs);
    var n := DataLength(|bs|);
    assert n == 0 || UrlSafe(Encode(bs)[n - 1]);
    StripPaddingAt(Encode(bs), n);
  }

  lemma EncodingIsAscii(bs: seq<Byte>)
    ensures forall i :: 0 <= i < |Encode(bs)| ==> Encode(bs)[i] as int < 128
  {
    EncodeShape(bs);
    forall i | 0 <= i < |Encode(bs)| ensures Encode(bs)[i] as int < 128 {
      assert i < DataLength(|bs|) ==> UrlSafe(Encode(bs)[i]);
    }
  }
}
