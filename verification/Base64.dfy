/** The unpadded, URL-safe base64 text used by reservation ids and page cursors (sections 3.2 and 5 of RFC 4648). */
module Base64 {
  import opened Contracts

  type Byte = x: nat | x < 256

  type Sextet = x: nat | x < 64

  function CharOf(s: Sextet): char {
    if s < 26 then ('A' as int + s) as char
    else if s < 52 then ('a' as int + s - 26) as char
    else if s < 62 then ('0' as int + s - 52) as char
    else if s == 62 then '-' else '_'
  }

  /** Decoding takes the characters of the standard alphabet as well. */
  function SextetOf(c: char): Option<Sextet> {
    if 'A' <= c <= 'Z' then Some(c as int - 'A' as int)
    else if 'a' <= c <= 'z' then Some(c as int - 'a' as int + 26)
    else if '0' <= c <= '9' then Some(c as int - '0' as int + 52)
    else if c == '-' || c == '+' then Some(62)
    else if c == '_' || c == '/' then Some(63)
    else None
  }

  // ---------------------------------------------------------------- encoding

  // The four sextets of three bytes.

  function First(a: Byte): Sextet { a / 4 }

  function Second(a: Byte, b: Byte): Sextet { a % 4 * 16 + b / 16 }

  function Third(b: Byte, c: Byte): Sextet { b % 16 * 4 + c / 64 }

  function Fourth(c: Byte): Sextet { c % 64 }

  function Group(a: Byte, b: Byte, c: Byte): (r: string)
    ensures |r| == 4
  {
    [CharOf(First(a)), CharOf(Second(a, b)), CharOf(Third(b, c)), CharOf(Fourth(c))]
  }

  /** Whole groups of three bytes, then a last one filled up with zeros and marked with padding. */
  function EncodePadded(raw: seq<Byte>): string {
    if |raw| == 0 then ""
    else if |raw| == 1 then Group(raw[0], 0, 0)[..2] + "=="
    else if |raw| == 2 then Group(raw[0], raw[1], 0)[..3] + "="
    else Group(raw[0], raw[1], raw[2]) + EncodePadded(raw[3..])
  }

  function StripPadding(text: string): string {
    if |text| > 0 && text[|text| - 1] == '=' then StripPadding(text[..|text| - 1]) else text
  }

  function Encode(raw: seq<Byte>): string {
    StripPadding(EncodePadded(raw))
  }

  // ---------------------------------------------------------------- decoding

  /** Where the decoder stands: its place in a group of four, the bits left over, the padding seen. */
  datatype Scanner = Scanner(place: nat, left: nat, pads: nat, out: seq<Byte>)

  predicate Sane(s: Scanner) {
    s.place < 4 && (s.place == 1 ==> s.left < 64) && (s.place == 2 ==> s.left < 16) && (s.place == 3 ==> s.left < 4)
  }

  function Take(s: Scanner, x: Sextet): (r: Scanner)
    requires Sane(s)
    ensures Sane(r)
  {
    if s.place == 0 then Scanner(1, x, 0, s.out)
    else if s.place == 1 then Scanner(2, x % 16, 0, s.out + [s.left * 4 + x / 16])
    else if s.place == 2 then Scanner(3, x % 4, 0, s.out + [s.left * 16 + x / 4])
    else Scanner(0, 0, 0, s.out + [s.left * 64 + x])
  }

  /** Characters outside the alphabet are skipped, enough padding ends the scan, and a group left
      unfinished is an error. */
  function Scan(text: string, s: Scanner): Option<seq<Byte>>
    requires Sane(s)
  {
    if |text| == 0 then if s.place == 0 then Some(s.out) else None
    else if text[0] == '=' then
      if s.place < 2 then Scan(text[1..], s)
      else if s.place + s.pads + 1 >= 4 then Some(s.out)
      else Scan(text[1..], s.(pads := s.pads + 1))
    else
      var x := SextetOf(text[0]);
      Scan(text[1..], if x.Some? then Take(s, x.value) else s)
  }

  function Pad(n: nat): (r: string)
    ensures |r| == n
  {
    if n == 0 then "" else Pad(n - 1) + "="
  }

  /** How many characters bring a length up to a multiple of four. */
  function Missing(length: nat): nat {
    (4 - length % 4) % 4
  }

  /** Pads the text out to whole groups and decodes it; anything but ASCII is refused. */
  function Decode(text: string): Option<seq<Byte>> {
    if exists c :: c in text && c as int >= 128 then None
    else Scan(text + Pad(Missing(|text|)), START)
  }

  // ---------------------------------------------------------------- the round trip

  lemma CharsComeBack(s: Sextet)
    ensures SextetOf(CharOf(s)) == Some(s)
    ensures CharOf(s) != '=' && CharOf(s) != '.' && CharOf(s) as int < 128
  {
  }

  /** The encoded text without its padding. */
  function Body(raw: seq<Byte>): string {
    if |raw| == 0 then ""
    else if |raw| == 1 then Group(raw[0], 0, 0)[..2]
    else if |raw| == 2 then Group(raw[0], raw[1], 0)[..3]
    else Group(raw[0], raw[1], raw[2]) + Body(raw[3..])
  }

  predicate Plain(c: char) {
    c != '=' && c != '.' && c as int < 128
  }

  lemma {:induction false} BodyIsPlain(raw: seq<Byte>)
    ensures forall c :: c in Body(raw) ==> Plain(c)
  {
    forall s: Sextet ensures Plain(CharOf(s)) {
      CharsComeBack(s);
    }
    if |raw| >= 3 {
      BodyIsPlain(raw[3..]);
    }
  }

  /** The padding of the last group of an encoded text, from the number of bytes. */
  function PadOf(raw: seq<Byte>): string {
    if |raw| == 0 then "" else if |raw| == 1 then "==" else if |raw| == 2 then "=" else PadOf(raw[3..])
  }

  lemma BodyGrows(raw: seq<Byte>)
    requires |raw| >= 3
    ensures |Body(raw)| == |Body(raw[3..])| + 4
  {
    hide CharOf;
  }

  /** It is what decoding adds to the stripped text. */
  lemma {:induction false} PadIsMissing(raw: seq<Byte>)
    ensures PadOf(raw) == Pad(Missing(|Body(raw)|))
  {
    if |raw| < 3 {
      ShortPadIsMissing(raw);
    } else {
      hide Body, Pad, Missing, EncodePadded;
      PadIsMissing(raw[3..]);
      BodyGrows(raw);
      MissingIsPeriodic(|Body(raw[3..])|);
    }
  }

  lemma ShortPadIsMissing(raw: seq<Byte>)
    requires |raw| < 3
    ensures PadOf(raw) == Pad(Missing(|Body(raw)|))
  {
    hide CharOf;
    var missing := if |raw| == 0 then 0 else 3 - |raw|;
    assert Missing(|Body(raw)|) == missing;
    assert Pad(1) == Pad(0) + "=";
  }

  lemma MissingIsPeriodic(length: nat)
    ensures Missing(length + 4) == Missing(length)
  {
  }

  lemma {:induction false} PaddedIsBodyAndPad(raw: seq<Byte>)
    ensures EncodePadded(raw) == Body(raw) + PadOf(raw)
  {
    if |raw| >= 3 {
      PaddedIsBodyAndPad(raw[3..]);
    }
  }

  lemma {:induction false} StrippingPad(text: string, n: nat)
    requires forall c :: c in text ==> Plain(c)
    ensures StripPadding(text + Pad(n)) == text
  {
    if n == 0 {
      assert text + Pad(0) == text;
      assert |text| > 0 ==> text[|text| - 1] in text;
    } else {
      assert (text + Pad(n))[..|text| + n - 1] == text + Pad(n - 1);
      StrippingPad(text, n - 1);
    }
  }

  /** Encoding yields the groups without padding, over an alphabet without '=' and '.'. */
  lemma EncodeIsBody(raw: seq<Byte>)
    ensures Encode(raw) == Body(raw)
    ensures forall c :: c in Encode(raw) ==> Plain(c)
  {
    BodyIsPlain(raw);
    PadIsMissing(raw);
    PaddedIsBodyAndPad(raw);
    StrippingPad(Body(raw), Missing(|Body(raw)|));
  }

  const START := Scanner(0, 0, 0, [])

  lemma ScanChar(x: Sextet, rest: string, s: Scanner)
    requires Sane(s)
    ensures Scan([CharOf(x)] + rest, s) == Scan(rest, Take(s, x))
  {
    CharsComeBack(x);
    assert ([CharOf(x)] + rest)[1..] == rest;
  }

  // The scanner after two, three and four characters of a group.

  lemma TakeTwo(a: Byte, b: Byte, out: seq<Byte>)
    ensures Take(Take(Scanner(0, 0, 0, out), First(a)), Second(a, b)) == Scanner(2, b / 16, 0, out + [a])
  {
  }

  lemma TakeThird(a: Byte, b: Byte, c: Byte, out: seq<Byte>)
    ensures Take(Scanner(2, b / 16, 0, out + [a]), Third(b, c)) == Scanner(3, c / 64, 0, out + [a, b])
  {
    assert out + [a] + [b] == out + [a, b];
  }

  lemma TakeFourth(a: Byte, b: Byte, c: Byte, out: seq<Byte>)
    ensures Take(Scanner(3, c / 64, 0, out + [a, b]), Fourth(c)) == Scanner(0, 0, 0, out + [a, b, c])
  {
    assert out + [a, b] + [c] == out + [a, b, c];
  }

  lemma ScanTwo(a: Byte, b: Byte, c: Byte, rest: string, out: seq<Byte>)
    ensures Scan(Group(a, b, c)[..2] + rest, Scanner(0, 0, 0, out)) == Scan(rest, Scanner(2, b / 16, 0, out + [a]))
  {
    var start := Scanner(0, 0, 0, out);
    assert Group(a, b, c)[..2] + rest == [CharOf(First(a))] + ([CharOf(Second(a, b))] + rest);
    ScanChar(First(a), [CharOf(Second(a, b))] + rest, start);
    ScanChar(Second(a, b), rest, Take(start, First(a)));
    TakeTwo(a, b, out);
  }

  lemma ScanThree(a: Byte, b: Byte, c: Byte, rest: string, out: seq<Byte>)
    ensures Scan(Group(a, b, c)[..3] + rest, Scanner(0, 0, 0, out)) == Scan(rest, Scanner(3, c / 64, 0, out + [a, b]))
  {
    assert Group(a, b, c)[..3] + rest == Group(a, b, c)[..2] + ([CharOf(Third(b, c))] + rest);
    ScanTwo(a, b, c, [CharOf(Third(b, c))] + rest, out);
    ScanChar(Third(b, c), rest, Scanner(2, b / 16, 0, out + [a]));
    TakeThird(a, b, c, out);
  }

  /** One whole group of four characters yields its three bytes. */
  lemma ScanGroup(a: Byte, b: Byte, c: Byte, rest: string, out: seq<Byte>)
    ensures Scan(Group(a, b, c) + rest, Scanner(0, 0, 0, out)) == Scan(rest, Scanner(0, 0, 0, out + [a, b, c]))
  {
    assert Group(a, b, c) + rest == Group(a, b, c)[..3] + ([CharOf(Fourth(c))] + rest);
    ScanThree(a, b, c, [CharOf(Fourth(c))] + rest, out);
    ScanChar(Fourth(c), rest, Scanner(3, c / 64, 0, out + [a, b]));
    TakeFourth(a, b, c, out);
  }

  lemma ScanPadding(rest: string, s: Scanner)
    requires Sane(s) && s.pads == 0
    ensures s.place == 2 ==> Scan(['='] + (['='] + rest), s) == Some(s.out)
    ensures s.place == 3 ==> Scan(['='] + rest, s) == Some(s.out)
  {
    assert (['='] + rest)[1..] == rest;
    assert (['='] + (['='] + rest))[1..] == ['='] + rest;
  }

  /** A last group of one byte. */
  lemma ScanOne(a: Byte, out: seq<Byte>)
    ensures Scan(Group(a, 0, 0)[..2] + "==", Scanner(0, 0, 0, out)) == Some(out + [a])
  {
    ScanTwo(a, 0, 0, "==", out);
    ScanPadding("", Scanner(2, 0, 0, out + [a]));
    assert ['='] + (['='] + "") == "==";
  }

  /** A last group of two. */
  lemma ScanPair(a: Byte, b: Byte, out: seq<Byte>)
    ensures Scan(Group(a, b, 0)[..3] + "=", Scanner(0, 0, 0, out)) == Some(out + [a, b])
  {
    ScanThree(a, b, 0, "=", out);
    ScanPadding("", Scanner(3, 0, 0, out + [a, b]));
    assert ['='] + "" == "=";
  }

  lemma SplitGroup(raw: seq<Byte>)
    requires |raw| >= 3
    ensures Body(raw) + PadOf(raw) == Group(raw[0], raw[1], raw[2]) + (Body(raw[3..]) + PadOf(raw[3..]))
  {
  }

  /** The scanner, at the start of a group, goes on to yield all the bytes. */
  ghost predicate Yields(raw: seq<Byte>, out: seq<Byte>) {
    Scan(Body(raw) + PadOf(raw), Scanner(0, 0, 0, out)) == Some(out + raw)
  }

  lemma GroupYields(raw: seq<Byte>, out: seq<Byte>)
    requires |raw| >= 3 && Yields(raw[3..], out + [raw[0], raw[1], raw[2]])
    ensures Yields(raw, out)
  {
    SplitGroup(raw);
    ScanGroup(raw[0], raw[1], raw[2], Body(raw[3..]) + PadOf(raw[3..]), out);
    assert out + [raw[0], raw[1], raw[2]] + raw[3..] == out + raw;
  }

  lemma {:induction false} ScanBody(raw: seq<Byte>, out: seq<Byte>)
    ensures Yields(raw, out)
  {
    if |raw| == 0 {
      assert out + raw == out;
    } else if |raw| == 1 {
      ScanOne(raw[0], out);
      assert [raw[0]] == raw;
    } else if |raw| == 2 {
      ScanPair(raw[0], raw[1], out);
      assert [raw[0], raw[1]] == raw;
    } else {
      ScanBody(raw[3..], out + [raw[0], raw[1], raw[2]]);
      GroupYields(raw, out);
    }
  }

  /** Decoding undoes encoding, for every byte string. */
  lemma DecodeUndoesEncode(raw: seq<Byte>)
    ensures Decode(Encode(raw)) == Some(raw)
  {
    EncodeIsBody(raw);
    var text := Encode(raw);
    assert Scan(text + Pad(Missing(|text|)), START) == Some(raw) by {
      PadIsMissing(raw);
      ScanBody(raw, START.out);
      assert Yields(raw, START.out) && START.out + raw == raw;
    }
  }
}
