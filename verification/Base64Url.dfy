/** base64url without padding, as Python's `urlsafe_b64encode(...).rstrip("=")` and the lenient
    `urlsafe_b64decode` of the re-padded text (section 5 of RFC 4648; history_cursor.py `_b64`, `_unb64`). */
module Base64Url {
  import opened Basics

  type Byte = b: int | 0 <= b < 256
  type Sextet = v: int | 0 <= v < 64

  /** A-Z a-z 0-9 - _ in that order. */
  function CharOf(v: Sextet): char {
    if v < 26 then (v + 'A' as int) as char
    else if v < 52 then (v - 26 + 'a' as int) as char
    else if v < 62 then (v - 52 + '0' as int) as char
    else if v == 62 then '-'
    else '_'
  }

  /** Value of an alphabet character; the standard alphabet's '+' and '/' are accepted too, others are None. */
  function ValueOf(c: char): (r: Option<Sextet>)
  {
    if 'A' <= c <= 'Z' then Some(c as int - 'A' as int)
    else if 'a' <= c <= 'z' then Some(c as int - 'a' as int + 26)
    else if '0' <= c <= '9' then Some(c as int - '0' as int + 52)
    else if c == '-' || c == '+' then Some(62)
    else if c == '_' || c == '/' then Some(63)
    else None
  }

  lemma CharValue(v: Sextet)
    ensures ValueOf(CharOf(v)) == Some(v)
    ensures CharOf(v) != '=' && CharOf(v) != '.' && CharOf(v) as int < 128
  {}

  // ---- Encoding ----

  /** Three bytes become four characters; one or two left-over bytes become two or three, without padding. */
  function Encode(bytes: seq<Byte>): string {
    if |bytes| == 0 then ""
    else if |bytes| == 1 then [CharOf(bytes[0] / 4), CharOf(bytes[0] % 4 * 16)]
    else if |bytes| == 2 then
      [CharOf(bytes[0] / 4), CharOf(bytes[0] % 4 * 16 + bytes[1] / 16), CharOf(bytes[1] % 16 * 4)]
    else Group(bytes[0], bytes[1], bytes[2]) + Encode(bytes[3..])
  }

  function Group(a: Byte, b: Byte, c: Byte): (g: string)
    ensures |g| == 4
  {
    [CharOf(a / 4), CharOf(a % 4 * 16 + b / 16), CharOf(b % 16 * 4 + c / 64), CharOf(c % 64)]
  }

  // ---- Decoding ----

  /** The decoder's registers: position in the group of four, bits carried over, pads seen, output so far. */
  datatype Registers = Registers(quad: nat, left: int, pads: nat, out: seq<Byte>)

  ghost predicate Sane(r: Registers) {
    && r.quad < 4
    && (r.quad == 0 ==> r.left == 0)
    && (r.quad == 1 ==> 0 <= r.left < 64)
    && (r.quad == 2 ==> 0 <= r.left < 16)
    && (r.quad == 3 ==> 0 <= r.left < 4)
  }

  /** One alphabet character. */
  function Feed(r: Registers, v: Sextet): (r': Registers)
    requires Sane(r)
    ensures Sane(r') && r'.pads == 0
  {
    match r.quad
    case 0 => Registers(1, v, 0, r.out)
    case 1 => Registers(2, v % 16, 0, r.out + [r.left * 4 + v / 16])
    case 2 => Registers(3, v % 4, 0, r.out + [r.left * 16 + v / 4])
    case _ => Registers(0, 0, 0, r.out + [r.left * 64 + v])
  }

  /** The scan: a completed pad sequence ends it, stray characters are skipped, and a cut-off group is an error. */
  function Scan(text: string, r: Registers): Option<seq<Byte>>
    requires Sane(r)
    decreases |text|
  {
    if text == "" then (if r.quad == 0 then Some(r.out) else None)
    else if text[0] == '=' then
      if r.quad >= 2 then
        if r.quad + r.pads + 1 >= 4 then Some(r.out)
        else Scan(text[1..], r.(pads := r.pads + 1))
      else Scan(text[1..], r)
    else match ValueOf(text[0])
      case None => Scan(text[1..], r)
      case Some(v) => Scan(text[1..], Feed(r, v))
  }

  /** The padding that encoding removed: up to the next multiple of four characters. */
  function Padding(length: nat): (p: string)
    ensures |p| == (4 - length % 4) % 4
  {
    match length % 4
    case 0 => ""
    case 1 => "==="
    case 2 => "=="
    case _ => "="
  }

  function Decode(value: string): Option<seq<Byte>> {
    Scan(Padded(value), Registers(0, 0, 0, []))
  }

  // ---- Round trip ----

  /** Plain ASCII letters of the alphabet, none of them the separator. */
  ghost predicate Clean(s: string) {
    forall i | 0 <= i < |s| :: s[i] != '.' && s[i] as int < 128 && ValueOf(s[i]).Some?
  }

  lemma CleanChar(v: Sextet)
    ensures Clean([CharOf(v)])
  {
    CharValue(v);
  }

  lemma CleanConcat(s: string, t: string)
    requires Clean(s) && Clean(t)
    ensures Clean(s + t)
  {}

  lemma CleanGroup(a: Sextet, b: Sextet, c: Sextet, d: Sextet)
    ensures Clean([CharOf(a), CharOf(b)]) && Clean([CharOf(a), CharOf(b), CharOf(c)])
    ensures Clean([CharOf(a), CharOf(b), CharOf(c), CharOf(d)])
  {
    CleanChar(a);
    CleanChar(b);
    CleanChar(c);
    CleanChar(d);
    assert [CharOf(a)][0] == CharOf(a) && [CharOf(b)][0] == CharOf(b);
    assert [CharOf(c)][0] == CharOf(c) && [CharOf(d)][0] == CharOf(d);
  }

  lemma {:induction false} EncodeClean(bytes: seq<Byte>)
    ensures Clean(Encode(bytes))
  {
    if |bytes| == 1 {
      CleanGroup(bytes[0] / 4, bytes[0] % 4 * 16, 0, 0);
    } else if |bytes| == 2 {
      CleanGroup(bytes[0] / 4, bytes[0] % 4 * 16 + bytes[1] / 16, bytes[1] % 16 * 4, 0);
    } else if |bytes| >= 3 {
      CleanGroup(bytes[0] / 4, bytes[0] % 4 * 16 + bytes[1] / 16, bytes[1] % 16 * 4 + bytes[2] / 64, bytes[2] % 64);
      EncodeClean(bytes[3..]);
      CleanConcat(Group(bytes[0], bytes[1], bytes[2]), Encode(bytes[3..]));
    }
  }

  lemma ScanChar(v: Sextet, rest: string, r: Registers)
    requires Sane(r)
    ensures Scan([CharOf(v)] + rest, r) == Scan(rest, Feed(r, v))
  {
    CharValue(v);
    assert ([CharOf(v)] + rest)[1..] == rest;
  }

  lemma ScanPad(rest: string, r: Registers)
    requires Sane(r) && r.quad >= 2
    ensures Scan("=" + rest, r) == if r.quad + r.pads + 1 >= 4 then Some(r.out) else Scan(rest, r.(pads := r.pads + 1))
  {
    assert ("=" + rest)[1..] == rest;
  }

  function FeedAll(r: Registers, v0: Sextet, v1: Sextet, v2: Sextet, v3: Sextet): Registers
    requires Sane(r)
  {
    Feed(Feed(Feed(Feed(r, v0), v1), v2), v3)
  }

  lemma ScanFour(v0: Sextet, v1: Sextet, v2: Sextet, v3: Sextet, rest: string, r: Registers)
    requires Sane(r)
    ensures Scan([CharOf(v0), CharOf(v1), CharOf(v2), CharOf(v3)] + rest, r) == Scan(rest, FeedAll(r, v0, v1, v2, v3))
  {
    var c0, c1, c2, c3 := CharOf(v0), CharOf(v1), CharOf(v2), CharOf(v3);
    assert [c0, c1, c2, c3] + rest == [c0] + ([c1] + ([c2] + ([c3] + rest)));
    ScanChar(v0, [c1] + ([c2] + ([c3] + rest)), r);
    ScanChar(v1, [c2] + ([c3] + rest), Feed(r, v0));
    ScanChar(v2, [c3] + rest, Feed(Feed(r, v0), v1));
    ScanChar(v3, rest, Feed(Feed(Feed(r, v0), v1), v2));
  }

  /** Four characters rebuild the three bytes they came from. */
  lemma FeedGroup(a: Byte, b: Byte, c: Byte, out: seq<Byte>)
    ensures FeedAll(Registers(0, 0, 0, out), a / 4, a % 4 * 16 + b / 16, b % 16 * 4 + c / 64, c % 64)
            == Registers(0, 0, 0, out + [a, b, c])
  {
    var r1 := Feed(Registers(0, 0, 0, out), a / 4);
    var r2 := Feed(r1, a % 4 * 16 + b / 16);
    assert r2 == Registers(2, b / 16, 0, out + [a]);
    var r3 := Feed(r2, b % 16 * 4 + c / 64);
    assert r3 == Registers(3, c / 64, 0, out + [a] + [b]);
    assert out + [a] + [b] + [c] == out + [a, b, c];
  }

  lemma ScanGroup(a: Byte, b: Byte, c: Byte, rest: string, out: seq<Byte>)
    ensures Scan(Group(a, b, c) + rest, Registers(0, 0, 0, out)) == Scan(rest, Registers(0, 0, 0, out + [a, b, c]))
  {
    ScanFour(a / 4, a % 4 * 16 + b / 16, b % 16 * 4 + c / 64, c % 64, rest, Registers(0, 0, 0, out));
    FeedGroup(a, b, c, out);
  }

  lemma ScanPads(r: Registers)
    requires Sane(r) && r.quad == 2 && r.pads == 0
    ensures Scan("==", r) == Some(r.out)
  {
    assert "==" == "=" + "=" && "=" == "=" + "";
    ScanPad("=", r);
    ScanPad("", r.(pads := 1));
  }

  lemma ScanTwo(a: Byte, out: seq<Byte>, text: string)
    requires text == [CharOf(a / 4)] + ([CharOf(a % 4 * 16)] + "==")
    ensures Scan(text, Registers(0, 0, 0, out)) == Some(out + [a])
  {
    var v0, v1: Sextet := a / 4, a % 4 * 16;
    var r0 := Registers(0, 0, 0, out);
    ScanChar(v0, [CharOf(v1)] + "==", r0);
    ScanChar(v1, "==", Feed(r0, v0));
    ScanPads(Feed(Feed(r0, v0), v1));
  }

  lemma ScanThree(a: Byte, b: Byte, out: seq<Byte>)
    ensures Scan([CharOf(a / 4), CharOf(a % 4 * 16 + b / 16), CharOf(b % 16 * 4)] + "=", Registers(0, 0, 0, out))
            == Some(out + [a, b])
  {
    ScanThreeSextets(a / 4, a % 4 * 16 + b / 16, b % 16 * 4, Registers(0, 0, 0, out));
    FeedTwoBytes(a, b, out);
    assert "=" + "" == "=";
    ScanPad("", Registers(3, 0, 0, out + [a, b]));
  }

  lemma ScanThreeSextets(v0: Sextet, v1: Sextet, v2: Sextet, r: Registers)
    requires Sane(r)
    ensures Scan([CharOf(v0), CharOf(v1), CharOf(v2)] + "=", r) == Scan("=", Feed(Feed(Feed(r, v0), v1), v2))
  {
    var c0, c1, c2 := CharOf(v0), CharOf(v1), CharOf(v2);
    assert [c0, c1, c2] + "=" == [c0] + ([c1] + ([c2] + "="));
    ScanChar(v0, [c1] + ([c2] + "="), r);
    ScanChar(v1, [c2] + "=", Feed(r, v0));
    ScanChar(v2, "=", Feed(Feed(r, v0), v1));
  }

  lemma FeedTwoBytes(a: Byte, b: Byte, out: seq<Byte>)
    ensures Feed(Feed(Feed(Registers(0, 0, 0, out), a / 4), a % 4 * 16 + b / 16), b % 16 * 4)
            == Registers(3, 0, 0, out + [a, b])
  {
    var r2 := Feed(Feed(Registers(0, 0, 0, out), a / 4), a % 4 * 16 + b / 16);
    assert r2 == Registers(2, b / 16, 0, out + [a]);
    assert out + [a] + [b] == out + [a, b];
  }

  function Padded(text: string): string {
    text + Padding(|text|)
  }

  /** From a fresh group with `out` decoded so far, the text decodes to `all`. */
  ghost predicate Scans(text: string, out: seq<Byte>, all: seq<Byte>) {
    Scan(Padded(text), Registers(0, 0, 0, out)) == Some(all)
  }

  lemma OneByteText(bytes: seq<Byte>)
    requires |bytes| == 1
    ensures Padded(Encode(bytes)) == [CharOf(bytes[0] / 4)] + ([CharOf(bytes[0] % 4 * 16)] + "==")
  {
    PadTwo(CharOf(bytes[0] / 4), CharOf(bytes[0] % 4 * 16));
  }

  lemma PadTwo(c0: char, c1: char)
    ensures Padded([c0, c1]) == [c0] + ([c1] + "==")
  {
    assert [c0, c1] + "==" == [c0] + ([c1] + "==");
  }

  lemma PadThree(c0: char, c1: char, c2: char)
    ensures Padded([c0, c1, c2]) == [c0, c1, c2] + "="
  {}

  lemma ScanOneByte(bytes: seq<Byte>, out: seq<Byte>)
    requires |bytes| == 1
    ensures Scan(Padded(Encode(bytes)), Registers(0, 0, 0, out)) == Some(out + bytes)
  {
    OneByteText(bytes);
    ScanTwo(bytes[0], out, Padded(Encode(bytes)));
    assert out + [bytes[0]] == out + bytes;
  }

  lemma ScanTwoBytes(bytes: seq<Byte>, out: seq<Byte>)
    requires |bytes| == 2
    ensures Scans(Encode(bytes), out, out + bytes)
  {
    ScanThreeChars(bytes[0], bytes[1], out);
    assert bytes == [bytes[0], bytes[1]];
  }

  lemma ScanThreeChars(a: Byte, b: Byte, out: seq<Byte>)
    ensures Scans([CharOf(a / 4), CharOf(a % 4 * 16 + b / 16), CharOf(b % 16 * 4)], out, out + [a, b])
  {
    PadThree(CharOf(a / 4), CharOf(a % 4 * 16 + b / 16), CharOf(b % 16 * 4));
    ScanThree(a, b, out);
  }

  lemma PaddedGroup(group: string, rest: string)
    requires |group| == 4
    ensures Padded(group + rest) == group + Padded(rest)
  {
    assert (|rest| + 4) % 4 == |rest| % 4;
    assert group + rest + Padding(|rest|) == group + (rest + Padding(|rest|));
  }

  lemma ScanNothing(out: seq<Byte>)
    ensures Scans("", out, out)
  {}

  lemma ScanGroupFirst(a: Byte, b: Byte, c: Byte, rest: string, out: seq<Byte>, all: seq<Byte>)
    requires Scans(rest, out + [a, b, c], all)
    ensures Scans(Group(a, b, c) + rest, out, all)
  {
    PaddedGroup(Group(a, b, c), rest);
    ScanGroup(a, b, c, Padded(rest), out);
  }

  lemma EncodeGroup(bytes: seq<Byte>)
    requires |bytes| >= 3
    ensures Encode(bytes) == Group(bytes[0], bytes[1], bytes[2]) + Encode(bytes[3..])
  {}

  lemma {:induction false} ScanEncoded(bytes: seq<Byte>, out: seq<Byte>)
    ensures Scans(Encode(bytes), out, out + bytes)
  {
    if |bytes| == 0 {
      ScanNothing(out);
      assert out + bytes == out;
    } else if |bytes| == 1 {
      ScanOneByte(bytes, out);
    } else if |bytes| == 2 {
      ScanTwoBytes(bytes, out);
    } else {
      var a, b, c := bytes[0], bytes[1], bytes[2];
      ScanEncoded(bytes[3..], out + [a, b, c]);
      SplitAtThree(bytes, out);
      EncodeGroup(bytes);
      ScanGroupFirst(a, b, c, Encode(bytes[3..]), out, out + bytes);
    }
  }

  lemma SplitAtThree(bytes: seq<Byte>, out: seq<Byte>)
    requires |bytes| >= 3
    ensures out + [bytes[0], bytes[1], bytes[2]] + bytes[3..] == out + bytes
  {
    assert [bytes[0], bytes[1], bytes[2]] + bytes[3..] == bytes;
  }

  /** Decoding an encoding gives the bytes back, for every byte string. */
  lemma RoundTrip(bytes: seq<Byte>)
    ensures Decode(Encode(bytes)) == Some(bytes)
  {
    ScanEncoded(bytes, []);
    assert [] + bytes == bytes;
  }
}
