/** The signed keyset cursor of the history page (history_cursor.py). The text formats of timestamps and ids and the
    keyed digest are abstract; splitting, stripping, encoding and every error branch are concrete. */
module HistoryCursor {
  import opened Basics
  import opened Base64Url

  /** A date and time; `offset` is None for a naive one. */
  datatype Stamp = Stamp(local: int, offset: Option<int>)

  /** Naive times are taken as UTC. */
  function AsUtc(t: Stamp): Stamp {
    if t.offset.None? then t.(offset := Some(0)) else t
  }

  datatype Formats = Formats(
    isoformat: Stamp -> string, fromIso: string -> Option<Stamp>,
    idText: int -> string, parseId: string -> Option<int>,
    utf8: seq<Byte> -> Option<string>,
    digest: string -> seq<Byte>)
  {
    ghost predicate Valid() {
      && (forall t :: Ascii(isoformat(t)) && fromIso(isoformat(t)) == Some(t))
      && (forall i :: Ascii(idText(i)) && '|' !in idText(i) && parseId(idText(i)) == Some(i))
      && (forall s :: Ascii(s) ==> utf8(Bytes(s)) == Some(s))
      && (forall s :: |digest(s)| == 16)
    }

    /** The truncated digest as base64url. */
    function Tag(body: string): string {
      Encode(digest(body))
    }
  }

  ghost predicate Ascii(s: string) {
    forall i | 0 <= i < |s| :: s[i] as int < 128
  }

  predicate IsAscii(s: string)
    ensures IsAscii(s) <==> Ascii(s)
  {
    if s == "" then true
    else
      assert s == [s[0]] + s[1..];
      s[0] as int < 128 && IsAscii(s[1..])
  }

  /** ASCII text as bytes. */
  function Bytes(s: string): (r: seq<Byte>)
  {
    seq(|s|, i requires 0 <= i < |s| => if s[i] as int < 256 then s[i] as int else 0)
  }

  // ---- String operations ----

  predicate IsSpace(c: char) {
    var n := c as int;
    9 <= n <= 13 || 28 <= n <= 32 || n == 0x85 || n == 0xA0 || n == 0x1680 || 0x2000 <= n <= 0x200A
    || n == 0x2028 || n == 0x2029 || n == 0x202F || n == 0x205F || n == 0x3000
  }

  function StripLeft(s: string): string {
    if s != "" && IsSpace(s[0]) then StripLeft(s[1..]) else s
  }

  function StripRight(s: string): string {
    if s != "" && IsSpace(s[|s| - 1]) then StripRight(s[..|s| - 1]) else s
  }

  function Strip(s: string): string {
    StripRight(StripLeft(s))
  }

  /** Split at the first separator: everything before the first separator, and everything after it. */
  function Partition(s: string, sep: char): (string, string) {
    if s == "" then ("", "")
    else if s[0] == sep then ("", s[1..])
    else
      var (before, after) := Partition(s[1..], sep);
      ([s[0]] + before, after)
  }

  /** Split at the last separator; None without one. */
  function SplitLast(s: string, sep: char): Option<(string, string)> {
    if s == "" then None
    else if s[|s| - 1] == sep then Some((s[..|s| - 1], ""))
    else match SplitLast(s[..|s| - 1], sep)
      case None => None
      case Some((before, after)) => Some((before, after + [s[|s| - 1]]))
  }

  // ---- Encode and decode ----

  datatype Reason = Empty | Unsigned | Mismatch | BadEncoding | BadPayload

  /** `Uncaught` is an exception other than CursorError: non-ASCII text reaching the digest or its comparison. */
  datatype Decoded = Accepted(at: Stamp, id: int) | Rejected(reason: Reason) | Uncaught

  function Payload(f: Formats, t: Stamp, id: int): string {
    f.isoformat(AsUtc(t)) + "|" + f.idText(id)
  }

  function Body(f: Formats, t: Stamp, id: int): string {
    Encode(Bytes(Payload(f, t, id)))
  }

  function EncodeCursor(f: Formats, t: Stamp, id: int): string {
    var body := Body(f, t, id);
    body + "." + f.Tag(body)
  }

  function ParsePayload(f: Formats, text: string): Decoded {
    match SplitLast(text, '|')
    case None => Rejected(BadPayload)
    case Some((tsPart, idPart)) =>
      match f.parseId(idPart)
      case None => Rejected(BadPayload)
      case Some(id) =>
        match f.fromIso(tsPart)
        case None => Rejected(BadPayload)
        case Some(t) => Accepted(AsUtc(t), id)
  }

  function DecodeCursor(f: Formats, cursor: string): Decoded {
    var text := Strip(cursor);
    if text == "" then Rejected(Empty)
    else
      var (body, signature) := Partition(text, '.');
      if signature == "" then Rejected(Unsigned)
      else if !IsAscii(body) || !IsAscii(signature) then Uncaught
      else if signature != f.Tag(body) then Rejected(Mismatch)
      else match Decode(body)
        case None => Rejected(BadEncoding)
        case Some(bytes) =>
          match f.utf8(bytes)
          case None => Rejected(BadEncoding)
          case Some(decoded) => ParsePayload(f, decoded)
  }

  // ---- Lemmas about the string operations ----

  lemma {:induction false} PartitionAt(before: string, after: string, sep: char)
    requires sep !in before
    ensures Partition(before + [sep] + after, sep) == (before, after)
  {
    var s := before + [sep] + after;
    if before == "" {
      assert s[1..] == after;
    } else {
      assert before == [before[0]] + before[1..];
      assert s[1..] == before[1..] + [sep] + after;
      PartitionAt(before[1..], after, sep);
    }
  }

  lemma {:induction false} PartitionRebuilds(s: string, sep: char)
    requires Partition(s, sep).1 != ""
    ensures s == Partition(s, sep).0 + [sep] + Partition(s, sep).1
    ensures sep !in Partition(s, sep).0
  {
    if s[0] == sep {
      assert s == [sep] + s[1..];
    } else {
      PartitionRebuilds(s[1..], sep);
      var (before, after) := Partition(s[1..], sep);
      assert s == [s[0]] + s[1..];
      assert s == [s[0]] + before + [sep] + after;
    }
  }

  lemma {:induction false} SplitLastAt(before: string, after: string, sep: char)
    requires sep !in after
    ensures SplitLast(before + [sep] + after, sep) == Some((before, after))
  {
    var s := before + [sep] + after;
    if after == "" {
      assert s[..|s| - 1] == before;
    } else {
      var front, last := after[..|after| - 1], after[|after| - 1];
      assert after == front + [last];
      assert s[..|s| - 1] == before + [sep] + front;
      SplitLastAt(before, front, sep);
    }
  }

  lemma StripNothing(s: string)
    requires s != "" && !IsSpace(s[0]) && !IsSpace(s[|s| - 1])
    ensures Strip(s) == s
  {}

  lemma CleanNoSpace(s: string)
    requires Clean(s)
    ensures forall i | 0 <= i < |s| :: !IsSpace(s[i])
    ensures '.' !in s && Ascii(s)
  {
    forall i | 0 <= i < |s|
      ensures !IsSpace(s[i])
    {
      assert ValueOf(s[i]).Some?;
    }
  }

  lemma TagFacts(f: Formats, body: string)
    requires f.Valid()
    ensures Clean(f.Tag(body)) && f.Tag(body) != ""
  {
    EncodeClean(f.digest(body));
    assert |f.digest(body)| == 16;
  }

  lemma BytesOfAscii(f: Formats, s: string)
    requires f.Valid() && Ascii(s)
    ensures f.utf8(Bytes(s)) == Some(s)
  {}

  // ---- Main results ----

  /** A signed text is accepted or rejected on its signature alone. */
  lemma SignedText(f: Formats, body: string, signature: string)
    requires Clean(body) && Clean(signature) && signature != ""
    ensures signature != f.Tag(body) ==> DecodeCursor(f, body + "." + signature) == Rejected(Mismatch)
    ensures signature == f.Tag(body) ==>
              DecodeCursor(f, body + "." + signature)
              == match Decode(body)
                 case None => Rejected(BadEncoding)
                 case Some(bytes) =>
                   match f.utf8(bytes)
                   case None => Rejected(BadEncoding)
                   case Some(decoded) => ParsePayload(f, decoded)
  {
    var s := body + "." + signature;
    CleanNoSpace(body);
    CleanNoSpace(signature);
    assert s[|s| - 1] == signature[|signature| - 1];
    assert s[0] == if body == "" then '.' else body[0];
    StripNothing(s);
    PartitionAt(body, signature, '.');
  }

  lemma PayloadParses(f: Formats, t: Stamp, id: int)
    requires f.Valid()
    ensures Ascii(Payload(f, t, id))
    ensures ParsePayload(f, Payload(f, t, id)) == Accepted(AsUtc(t), id)
  {
    SplitLastAt(f.isoformat(AsUtc(t)), f.idText(id), '|');
    assert AsUtc(AsUtc(t)) == AsUtc(t);
  }

  /** Decoding what encoding produced gives the instant and the id back, for every timestamp and id. */
  lemma CursorRoundTrip(f: Formats, t: Stamp, id: int)
    requires f.Valid()
    ensures DecodeCursor(f, EncodeCursor(f, t, id)) == Accepted(AsUtc(t), id)
  {
    var payload, body := Payload(f, t, id), Body(f, t, id);
    PayloadParses(f, t, id);
    EncodeClean(Bytes(payload));
    TagFacts(f, body);
    RoundTrip(Bytes(payload));
    BytesOfAscii(f, payload);
    SignedText(f, body, f.Tag(body));
  }

  /** Different positions have different cursors. */
  lemma CursorInjective(f: Formats, t: Stamp, id: int, t': Stamp, id': int)
    requires f.Valid() && EncodeCursor(f, t, id) == EncodeCursor(f, t', id')
    ensures AsUtc(t) == AsUtc(t') && id == id'
  {
    CursorRoundTrip(f, t, id);
    CursorRoundTrip(f, t', id');
  }

  /** Every accepted cursor is a body followed by the tag of that very body. */
  lemma AcceptedIsTagged(f: Formats, cursor: string)
    requires DecodeCursor(f, cursor).Accepted?
    ensures exists body :: Strip(cursor) == body + "." + f.Tag(body) && Decode(body).Some?
  {
    var text := Strip(cursor);
    PartitionRebuilds(text, '.');
    var body := Partition(text, '.').0;
    assert text == body + "." + f.Tag(body) && Decode(body).Some?;
  }

  /** A body under another body's tag is refused exactly when the two tags differ. */
  lemma SwappedTagRefused(f: Formats, t: Stamp, id: int, t': Stamp, id': int)
    requires f.Valid()
    ensures DecodeCursor(f, Body(f, t, id) + "." + f.Tag(Body(f, t', id'))) == Rejected(Mismatch)
            <==> f.Tag(Body(f, t, id)) != f.Tag(Body(f, t', id'))
  {
    var body, other := Body(f, t, id), Body(f, t', id');
    EncodeClean(Bytes(Payload(f, t, id)));
    TagFacts(f, body);
    TagFacts(f, other);
    SignedText(f, body, f.Tag(other));
    CursorRoundTrip(f, t, id);
  }

  /** The decoder answers with CursorError or a position for every input, except exactly the signed ones
      that contain a character outside ASCII. */
  lemma UncaughtIff(f: Formats, cursor: string)
    ensures DecodeCursor(f, cursor).Uncaught?
            <==> Partition(Strip(cursor), '.').1 != "" && !Ascii(Strip(cursor))
  {
    var text := Strip(cursor);
    var (body, signature) := Partition(text, '.');
    if signature != "" {
      PartitionRebuilds(text, '.');
      assert Ascii(text) <==> Ascii(body) && Ascii(signature) by {
        AsciiConcat(body, "." + signature);
        AsciiConcat(".", signature);
        assert text == body + ("." + signature);
      }
    }
  }

  /** A signed text with an accented letter ends in an exception that is not a cursor error. */
  lemma AccentedCursorUncaught(f: Formats)
    ensures DecodeCursor(f, "\U{00E9}.A") == Uncaught
  {
    var s := "\U{00E9}.A";
    assert s == [s[0]] + ['.'] + "A";
    PartitionAt([s[0]], "A", '.');
    assert Strip(s) == s;
    assert !Ascii([s[0]]);
  }

  lemma AsciiConcat(s: string, t: string)
    ensures Ascii(s + t) <==> Ascii(s) && Ascii(t)
  {
    assert forall i | 0 <= i < |s| :: (s + t)[i] == s[i];
    assert forall i | 0 <= i < |t| :: (s + t)[|s| + i] == t[i];
  }
}
