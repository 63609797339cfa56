/**
 The JSON text of a cursor (RFC 8259, sections 4, 6 and 7): the compact, key-sorted
 printer, and a reader for objects whose members are scalars.  The reader skips
 insignificant white space, lets a repeated key overwrite the earlier member, and
 reads integers without leading zeros, as `json.loads` does.
 */
module CursorJson {
  import opened Options
  import opened Ordering

  datatype Json = Int(n: int) | Bool(b: bool) | Null | Str(s: string)

  // ---------------------------------------------------------------- numbers

  predicate IsDigit(c: char) {
    '0' <= c <= '9'
  }

  function Decimal(n: nat): (s: string)
    ensures |s| > 0
  {
    var last := ['0' + ((n % 10) as char)];
    if n < 10 then last else Decimal(n / 10) + last
  }

  function LeadingDigits(s: string): (k: nat)
    ensures k <= |s|
    ensures forall i :: 0 <= i < k ==> IsDigit(s[i])
  {
    if s == "" || !IsDigit(s[0]) then 0 else 1 + LeadingDigits(s[1..])
  }

  function NatValue(ds: string): nat
    requires forall i :: 0 <= i < |ds| ==> IsDigit(ds[i])
  {
    if ds == "" then 0
    else
      assert IsDigit(ds[|ds| - 1]);
      NatValue(ds[..|ds| - 1]) * 10 + (ds[|ds| - 1] as int - '0' as int)
  }

  /** The unsigned part of a number: "0", or digits that do not start with "0". */
  function ParseNat(s: string): (r: Option<(nat, string)>)
    ensures r.Some? ==> |r.value.1| < |s|
  {
    var k := LeadingDigits(s);
    if k == 0 then None
    else if s[0] == '0' then Some((0, s[1..]))
    else Some((NatValue(s[..k]), s[k..]))
  }

  lemma {:induction false} DecimalDigits(n: nat)
    ensures forall i :: 0 <= i < |Decimal(n)| ==> IsDigit(Decimal(n)[i])
    ensures NatValue(Decimal(n)) == n
    ensures Decimal(n)[0] == '0' ==> n == 0
  {
    var d := n % 10;
    var last := ['0' + (d as char)];
    assert IsDigit(last[0]) && last[0] as int - '0' as int == d;
    assert last[..0] == "";
    if n >= 10 {
      DecimalDigits(n / 10);
      var s := Decimal(n);
      assert s[..|s| - 1] == Decimal(n / 10);
      assert s[0] == Decimal(n / 10)[0];
    }
  }

  lemma {:induction false} LeadingDigitsOf(ds: string, rest: string)
    requires forall i :: 0 <= i < |ds| ==> IsDigit(ds[i])
    requires rest == "" || !IsDigit(rest[0])
    ensures LeadingDigits(ds + rest) == |ds|
  {
    if ds == "" {
      assert ds + rest == rest;
    } else {
      LeadingDigitsOf(ds[1..], rest);
      assert (ds + rest)[1..] == ds[1..] + rest;
    }
  }

  /** Reading undoes printing, for every natural number. */
  lemma ParseNatInvertsDecimal(n: nat, rest: string)
    requires rest == "" || !IsDigit(rest[0])
    ensures ParseNat(Decimal(n) + rest) == Some((n, rest))
  {
    var ds := Decimal(n);
    DecimalDigits(n);
    LeadingDigitsOf(ds, rest);
    var s := ds + rest;
    assert s[..|ds|] == ds && s[|ds|..] == rest;
    if s[0] == '0' {
      assert n == 0 && |ds| == 1;
    }
  }

  // ---------------------------------------------------------------- tokens

  predicate IsWhitespace(c: char) {
    c == ' ' || c == '\t' || c == '\n' || c == '\r'
  }

  function SkipWhitespace(s: string): (r: string)
    ensures |r| <= |s|
  {
    if s != "" && IsWhitespace(s[0]) then SkipWhitespace(s[1..]) else s
  }

  function Expect(token: string, s: string): (r: Option<string>)
    ensures r.Some? ==> |r.value| == |s| - |token|
  {
    if token <= s then Some(s[|token|..]) else None
  }

  /** The rest of a string after its opening quote; escapes are not read. */
  function ParseString(s: string): (r: Option<(string, string)>)
    ensures r.Some? ==> |r.value.1| < |s|
  {
    if s == "" || s[0] == '\\' || s[0] < ' ' then None
    else if s[0] == '\"' then Some(("", s[1..]))
    else
      var r :- ParseString(s[1..]);
      Some(([s[0]] + r.0, r.1))
  }

  function ParseValue(s: string): (r: Option<(Json, string)>)
    ensures r.Some? ==> |r.value.1| < |s|
  {
    if s == "" then None
    else if s[0] == '\"' then
      var r :- ParseString(s[1..]);
      Some((Str(r.0), r.1))
    else if s[0] == '-' then
      var r :- ParseNat(s[1..]);
      Some((Int(0 - r.0), r.1))
    else if IsDigit(s[0]) then
      var r :- ParseNat(s);
      Some((Int(r.0), r.1))
    else if "true" <= s then Some((Bool(true), s[4..]))
    else if "false" <= s then Some((Bool(false), s[5..]))
    else if "null" <= s then Some((Null, s[4..]))
    else None
  }

  // ---------------------------------------------------------------- objects

  function ParseMember(s: string): (r: Option<((string, Json), string)>)
    ensures r.Some? ==> |r.value.1| < |s|
  {
    var open :- Expect("\"", s);
    var key :- ParseString(open);
    var value :- Expect(":", SkipWhitespace(key.1));
    var v :- ParseValue(SkipWhitespace(value));
    Some(((key.0, v.0), v.1))
  }

  /** The members after the first; a later member replaces an earlier one of its name. */
  function ParseMembers(s: string, seen: map<string, Json>): Option<(map<string, Json>, string)>
    decreases |s|
  {
    var m :- ParseMember(s);
    var all := seen[m.0.0 := m.0.1];
    var rest := SkipWhitespace(m.1);
    if "}" <= rest then Some((all, rest[1..]))
    else
      var next :- Expect(",", rest);
      ParseMembers(SkipWhitespace(next), all)
  }

  function ParseObject(s: string): Option<map<string, Json>> {
    var open :- Expect("{", SkipWhitespace(s));
    var first := SkipWhitespace(open);
    var r :- if "}" <= first then Some((map[], first[1..])) else ParseMembers(first, map[]);
    if SkipWhitespace(r.1) == "" then Some(r.0) else None
  }

  // ---------------------------------------------------------------- printing

  /** SQL identifiers: the names that tables can have, and that need no escapes. */
  predicate IdentifierChar(c: char) {
    'A' <= c <= 'Z' || 'a' <= c <= 'z' || '0' <= c <= '9' || c == '_'
  }

  predicate IsIdentifier(s: string) {
    && s != "" && !IsDigit(s[0])
    && forall i :: 0 <= i < |s| ==> IdentifierChar(s[i])
  }

  function MemberText(name: string, position: nat): string {
    "\"" + name + "\":" + Decimal(position)
  }

  function MembersText(names: seq<string>, c: map<string, nat>): string
    requires forall k :: k in names ==> k in c
  {
    if names == [] then ""
    else if |names| == 1 then MemberText(names[0], c[names[0]])
    else MemberText(names[0], c[names[0]]) + "," + MembersText(names[1..], c)
  }

  /** `json.dumps(…, separators=(",", ":"), sort_keys=True)`. */
  function ObjectText(c: map<string, nat>): string {
    StrLessIsStrictTotalOrder();
    "{" + MembersText(Sorted(c.Keys, StrLess), c) + "}"
  }

  // ---------------------------------------------------------------- reading back

  lemma {:induction false} ParseStringOf(name: string, rest: string)
    requires forall i :: 0 <= i < |name| ==> IdentifierChar(name[i])
    ensures ParseString(name + ("\"" + rest)) == Some((name, rest))
  {
    var s := name + ("\"" + rest);
    if name == "" {
      assert s == "\"" + rest && s[1..] == rest;
    } else {
      ParseStringOf(name[1..], rest);
      assert s[0] == name[0] && s[1..] == name[1..] + ("\"" + rest);
      assert name == [name[0]] + name[1..];
    }
  }

  lemma ParseMemberOf(name: string, position: nat, rest: string)
    requires IsIdentifier(name)
    requires rest == "" || !IsDigit(rest[0])
    ensures ParseMember(MemberText(name, position) + rest) == Some(((name, Int(position)), rest))
  {
    var number := Decimal(position) + rest;
    var colon := ":" + number;
    var open := name + ("\"" + colon);
    var s := MemberText(name, position) + rest;
    assert s == "\"" + open;
    assert Expect("\"", s) == Some(open);
    ParseStringOf(name, colon);
    assert Expect(":", colon) == Some(number);
    DecimalDigits(position);
    assert IsDigit(number[0]) by { assert number[0] == Decimal(position)[0]; }
    ParseNatInvertsDecimal(position, rest);
    assert ParseValue(number) == Some((Int(position), rest));
  }

  function Members(names: seq<string>, c: map<string, nat>): map<string, Json>
    requires forall k :: k in names ==> k in c
  {
    map k | k in names :: Int(c[k])
  }

  lemma LastMember(s: string, seen: map<string, Json>, k: string, j: Json)
    requires ParseMember(s) == Some(((k, j), "}"))
    ensures ParseMembers(s, seen) == Some((seen[k := j], ""))
  {
    assert SkipWhitespace("}") == "}" && "}"[1..] == "";
  }

  lemma NextMember(s: string, seen: map<string, Json>, k: string, j: Json, tail: string)
    requires ParseMember(s) == Some(((k, j), "," + tail))
    requires tail != "" && !IsWhitespace(tail[0])
    ensures ParseMembers(s, seen) == ParseMembers(tail, seen[k := j])
  {
    var rest := "," + tail;
    assert SkipWhitespace(rest) == rest;
    assert Expect(",", rest) == Some(tail);
    assert SkipWhitespace(tail) == tail;
  }

  lemma MembersTextStep(names: seq<string>, c: map<string, nat>)
    requires |names| > 1 && forall k :: k in names ==> k in c
    ensures MembersText(names, c) + "}" ==
            MemberText(names[0], c[names[0]]) + ("," + (MembersText(names[1..], c) + "}"))
  {
  }

  lemma {:induction false} ParseMembersOf(names: seq<string>, c: map<string, nat>, seen: map<string, Json>)
    requires names != [] && forall k :: k in names ==> k in c && IsIdentifier(k)
    ensures ParseMembers(MembersText(names, c) + "}", seen) == Some((seen + Members(names, c), ""))
    decreases |names|
  {
    SeenAndMembers(names, c, seen);
    var name, position := names[0], c[names[0]];
    var all := seen[name := Int(position)];
    if |names| == 1 {
      ParseMemberOf(name, position, "}");
      LastMember(MemberText(name, position) + "}", seen, name, Int(position));
    } else {
      var tail := MembersText(names[1..], c) + "}";
      MembersTextStep(names, c);
      var s := MemberText(name, position) + ("," + tail);
      ParseMemberOf(name, position, "," + tail);
      MembersStartWithQuote(names[1..], c);
      NextMember(s, seen, name, Int(position), tail);
      ParseMembersOf(names[1..], c, all);
    }
  }

  lemma MembersStartWithQuote(names: seq<string>, c: map<string, nat>)
    requires names != [] && forall k :: k in names ==> k in c
    ensures MembersText(names, c) != "" && MembersText(names, c)[0] == '\"'
  {
  }

  lemma SeenAndMembers(names: seq<string>, c: map<string, nat>, seen: map<string, Json>)
    requires names != [] && forall k :: k in names ==> k in c
    ensures seen[names[0] := Int(c[names[0]])] + Members(names[1..], c) == seen + Members(names, c)
    ensures |names| == 1 ==> seen[names[0] := Int(c[names[0]])] == seen + Members(names, c)
  {
    assert names == [names[0]] + names[1..];
  }

  /** The sorted text of a cursor reads back as exactly its members. */
  lemma ParseObjectInvertsObjectText(c: map<string, nat>)
    requires forall k :: k in c ==> IsIdentifier(k)
    ensures ParseObject(ObjectText(c)) == Some(map k | k in c :: Int(c[k]))
  {
    StrLessIsStrictTotalOrder();
    var names := Sorted(c.Keys, StrLess);
    assert Members(names, c) == map k | k in c :: Int(c[k]);
    ParseTextOf(names, c);
  }

  lemma ParseTextOf(names: seq<string>, c: map<string, nat>)
    requires forall k :: k in names ==> k in c && IsIdentifier(k)
    ensures ParseObject("{" + MembersText(names, c) + "}") == Some(Members(names, c))
  {
    var body := MembersText(names, c) + "}";
    assert "{" + MembersText(names, c) + "}" == "{" + body;
    if names == [] {
      EmptyObject();
    } else {
      MembersStartWithQuote(names, c);
      var none: map<string, Json> := map[];
      ParseMembersOf(names, c, none);
      NothingPlusMembers(names, c);
      NonEmptyObject(body, Members(names, c));
    }
  }

  lemma NothingPlusMembers(names: seq<string>, c: map<string, nat>)
    requires forall k :: k in names ==> k in c
    ensures var none: map<string, Json> := map[]; none + Members(names, c) == Members(names, c)
  {
  }

  lemma EmptyObject()
    ensures ParseObject("{" + "}") == Some(map[])
  {
    assert Expect("{", "{}") == Some("}");
    assert "}"[1..] == "";
  }

  lemma NonEmptyObject(body: string, members: map<string, Json>)
    requires body != "" && body[0] == '\"'
    requires ParseMembers(body, map[]) == Some((members, ""))
    ensures ParseObject("{" + body) == Some(members)
  {
    var s := "{" + body;
    assert SkipWhitespace(s) == s;
    assert Expect("{", s) == Some(body);
    assert SkipWhitespace(body) == body;
  }

  lemma {:induction false} MembersTextIsAscii(names: seq<string>, c: map<string, nat>)
    requires forall k :: k in names ==> k in c && IsIdentifier(k)
    ensures forall i :: 0 <= i < |MembersText(names, c)| ==> MembersText(names, c)[i] as int < 128
  {
    if names != [] {
      DecimalDigits(c[names[0]]);
      assert forall i :: 0 <= i < |MemberText(names[0], c[names[0]])| ==>
          MemberText(names[0], c[names[0]])[i] as int < 128 by {
        assert IsIdentifier(names[0]);
      }
      MembersTextIsAscii(names[1..], c);
    }
  }
}
