/** The text of a page cursor, before its base64 wrapping. */
module AuditCursor {
  import opened Text
  import opened Placeholder
  import opened AuditIndex

  const MIN_INT64 := -0x8000_0000_0000_0000
  const MAX_INT64 := 0x7fff_ffff_ffff_ffff

  datatype Decoded = BadCursor | At(nanos: int, id: string)

  function FormatInt(n: int): (s: string)
    ensures s != ""
  {
    if n < 0 then "-" + Dec(-n) else Dec(n)
  }

  /** A decimal integer with an optional sign, within 64 bits. */
  function ParseInt(s: string): Option<int> {
    var signed := s != "" && (s[0] == '-' || s[0] == '+');
    var digits := if signed then s[1..] else s;
    if digits == "" || !Digits(digits) then None else
      var v: int := Value(digits);
      var n: int := if signed && s[0] == '-' then -v else v;
      if MIN_INT64 <= n <= MAX_INT64 then Some(n) else None
  }

  /** Position of the first colon, or the length. */
  function ColonAt(s: string): (i: nat)
    ensures i <= |s| && ':' !in s[..i] && (i < |s| ==> s[i] == ':')
  {
    if s == "" || s[0] == ':' then 0 else 1 + ColonAt(s[1..])
  }

  function EncodeAuditCursor(nanos: int, id: string): string {
    FormatInt(nanos) + ":" + id
  }

  function DecodeAuditCursor(raw: string): Decoded {
    var i := ColonAt(raw);
    if i == |raw| || raw[i + 1..] == "" then BadCursor else
      match ParseInt(raw[..i])
      case None => BadCursor
      case Some(nanos) => At(nanos, raw[i + 1..])
  }

  lemma FormatParses(n: int)
    requires MIN_INT64 <= n <= MAX_INT64
    ensures ParseInt(FormatInt(n)) == Some(n) && ':' !in FormatInt(n)
  {
    hide Dec, Value;
    var d := Dec(if n < 0 then -n else n);
    ValueOfDec(if n < 0 then -n else n);
    assert IsDigit(d[0]);
    assert ("-" + d)[1..] == d;
  }

  lemma {:induction false} ColonOf(a: string, b: string)
    requires ':' !in a
    ensures ColonAt(a + ":" + b) == |a|
  {
    if a == "" {
      assert a + ":" + b == ":" + b;
    } else {
      assert (a + ":" + b)[1..] == a[1..] + ":" + b;
      ColonOf(a[1..], b);
    }
  }

  /** A cursor decodes to what it was made from if and only if it names a request ID. */
  lemma CursorRoundTrip(nanos: int, id: string)
    requires MIN_INT64 <= nanos <= MAX_INT64
    ensures DecodeAuditCursor(EncodeAuditCursor(nanos, id)) == if id == "" then BadCursor else At(nanos, id)
  {
    hide ParseInt, FormatInt;
    var a := FormatInt(nanos);
    var raw := EncodeAuditCursor(nanos, id);
    FormatParses(nanos);
    ColonOf(a, id);
    assert raw[..|a|] == a && raw[|a| + 1..] == id;
  }

  /** The listing position of a decoded cursor: timestamps count in whole microseconds. */
  function Position(d: Decoded): Option<Cursor> {
    if d.BadCursor? then None else Some(Cursor(d.nanos / 1000, d.id))
  }

  /** A page's cursor, sent back, names the record it was made from. */
  lemma PageCursorSurvives(c: Cursor)
    requires MIN_INT64 <= c.micro * 1000 <= MAX_INT64 && c.id != ""
    ensures Position(DecodeAuditCursor(EncodeAuditCursor(c.micro * 1000, c.id))) == Some(c)
  {
    CursorRoundTrip(c.micro * 1000, c.id);
  }
}
