/**
 The stream cursor of apps/internal_graphs_live.py: a position per table, sent as the
 opaque `id` of a server-sent event and read back from `Last-Event-ID`.
 */
module StreamCursor {
  import opened Options
  import opened Ordering
  import Base64Url
  import opened CursorJson

  type Cursor = map<string, nat>

  const MAX_LENGTH: nat := 1024

  function AsciiBytes(s: string): seq<Base64Url.Byte>
    requires forall i :: 0 <= i < |s| ==> s[i] as int < 128
  {
    seq(|s|, i requires 0 <= i < |s| => s[i] as int)
  }

  function AsciiText(bs: seq<Base64Url.Byte>): Option<string> {
    if forall i :: 0 <= i < |bs| ==> bs[i] < 128
    then Some(seq(|bs|, i requires 0 <= i < |bs| => bs[i] as char))
    else None
  }

  function Encode(c: Cursor): string
    requires forall k :: k in c ==> IsIdentifier(k)
  {
    ObjectTextIsAscii(c);
    Base64Url.StripPadding(Base64Url.Encode(AsciiBytes(ObjectText(c))))
  }

  /** A JSON value that Python's `isinstance(v, int) and v >= 0` lets through. */
  function Position(j: Json): Option<nat> {
    match j
    case Int(n) => if n >= 0 then Some(n) else None
    case Bool(b) => Some(if b then 1 else 0)
    case Null => None
    case Str(_) => None
  }

  /** Keeps the members that are positions, and refuses the object if that drops one. */
  function Validate(raw: map<string, Json>): Option<Cursor> {
    var positions := map k | k in raw && Position(raw[k]).Some? :: Position(raw[k]).value;
    if positions.Keys != raw.Keys then None else Some(positions)
  }

  function DecodePayload(value: string): Option<Cursor> {
    var bytes :- Base64Url.Decode(value + Base64Url.Padding(|value|));
    var text :- AsciiText(bytes);
    var raw :- ParseObject(text);
    Validate(raw)
  }

  function Decode(value: Option<string>): Option<Cursor> {
    if value.None? || value.value == "" || |value.value| > MAX_LENGTH then None
    else DecodePayload(value.value)
  }

  // ---------------------------------------------------------------- properties

  lemma ObjectTextIsAscii(c: Cursor)
    requires forall k :: k in c ==> IsIdentifier(k)
    ensures forall i :: 0 <= i < |ObjectText(c)| ==> ObjectText(c)[i] as int < 128
  {
    StrLessIsStrictTotalOrder();
    var names := Sorted(c.Keys, StrLess);
    MembersTextIsAscii(names, c);
    BracedIsAscii(MembersText(names, c));
  }

  lemma BracedIsAscii(body: string)
    requires forall i :: 0 <= i < |body| ==> body[i] as int < 128
    ensures forall i :: 0 <= i < |"{" + body + "}"| ==> ("{" + body + "}")[i] as int < 128
  {
  }

  /** A bad member rejects the whole cursor; nothing is silently dropped. */
  lemma ValidateIsAllOrNothing(raw: map<string, Json>)
    ensures Validate(raw).Some? <==> forall k :: k in raw ==> Position(raw[k]).Some?
    ensures Validate(raw).Some? ==>
              Validate(raw).value.Keys == raw.Keys
              && forall k :: k in raw ==> Position(raw[k]) == Some(Validate(raw).value[k])
  {
    var positions := map k | k in raw && Position(raw[k]).Some? :: Position(raw[k]).value;
    if forall k :: k in raw ==> Position(raw[k]).Some? {
      assert positions.Keys == raw.Keys;
    } else {
      var k :| k in raw && Position(raw[k]).None?;
      assert k !in positions.Keys;
    }
  }

  lemma AsciiRoundTrip(s: string)
    requires forall i :: 0 <= i < |s| ==> s[i] as int < 128
    ensures AsciiText(AsciiBytes(s)) == Some(s)
  {
    var bs := AsciiBytes(s);
    assert seq(|bs|, i requires 0 <= i < |bs| => bs[i] as char) == s;
  }

  /** What is sent is URL-safe, and its length is never 1 mod 4. */
  lemma EncodedIsUrlSafe(c: Cursor)
    requires forall k :: k in c ==> IsIdentifier(k)
    ensures Encode(c) != "" && |Encode(c)| % 4 != 1
    ensures forall i :: 0 <= i < |Encode(c)| ==> Base64Url.UrlSafe(Encode(c)[i])
  {
    ObjectTextIsAscii(c);
    Base64Url.PaddingRestored(AsciiBytes(ObjectText(c)));
  }

  lemma PayloadRoundTrip(c: Cursor)
    requires forall k :: k in c ==> IsIdentifier(k)
    ensures DecodePayload(Encode(c)) == Some(c)
  {
    ObjectTextIsAscii(c);
    var text := ObjectText(c);
    var bytes := AsciiBytes(text);
    Base64Url.PaddingRestored(bytes);
    AsciiRoundTrip(text);
    ParseObjectInvertsObjectText(c);
    ValidateIntegers(c);
    DecodeStages(Encode(c), bytes, text, map k | k in c :: Int(c[k]));
  }

  lemma ValidateIntegers(c: Cursor)
    ensures Validate(map k | k in c :: Int(c[k])) == Some(c)
  {
    var raw: map<string, Json> := map k | k in c :: Int(c[k]);
    ValidateIsAllOrNothing(raw);
    assert forall k :: k in raw ==> Position(raw[k]) == Some(c[k]);
    assert Validate(raw).value == c;
  }

  lemma DecodeStages(value: string, bytes: seq<Base64Url.Byte>, text: string, raw: map<string, Json>)
    requires Base64Url.Decode(value + Base64Url.Padding(|value|)) == Some(bytes)
    requires AsciiText(bytes) == Some(text)
    requires ParseObject(text) == Some(raw)
    ensures DecodePayload(value) == Validate(raw)
  {
  }

  /** The cursor that comes back is the one that was sent, unless it was too long to accept. */
  lemma RoundTrip(c: Cursor)
    requires forall k :: k in c ==> IsIdentifier(k)
    ensures Decode(Some(Encode(c))) == if |Encode(c)| <= MAX_LENGTH then Some(c) else None
  {
    EncodedIsUrlSafe(c);
    PayloadRoundTrip(c);
  }

  /** Different cursors never share an id. */
  lemma EncodeIsInjective(c: Cursor, d: Cursor)
    requires forall k :: k in c ==> IsIdentifier(k)
    requires forall k :: k in d ==> IsIdentifier(k)
    requires Encode(c) == Encode(d)
    ensures c == d
  {
    PayloadRoundTrip(c);
    PayloadRoundTrip(d);
  }
}
