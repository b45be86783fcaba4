/** The reading of UTF-8 against its definition: sections 3 and 4 of RFC 3629, from characters to bytes. */
module Utf8Encoding {
  import opened Common
  import opened Utf8

  /** The characters there are: every number up to U+10FFFF but for the surrogates. */
  predicate IsScalar(c: nat) {
    c < 0xD800 || 0xE000 <= c < 0x11_0000
  }

  predicate AllScalar(cs: seq<nat>) {
    forall i :: 0 <= i < |cs| ==> IsScalar(cs[i])
  }

  function TailByte(n: nat): byte {
    (0x80 + n % 0x40) as byte
  }

  function EncodeChar(c: nat): (b: Bytes)
    requires IsScalar(c)
    ensures 1 <= |b| <= 4
  {
    var c1, c2, c3 := c / 0x40, c / 0x40 / 0x40, c / 0x40 / 0x40 / 0x40;
    if c < 0x80 then [c as byte]
    else if c < 0x800 then [(0xC0 + c1) as byte, TailByte(c)]
    else if c < 0x1_0000 then [(0xE0 + c2) as byte, TailByte(c1), TailByte(c)]
    else [(0xF0 + c3) as byte, TailByte(c2), TailByte(c1), TailByte(c)]
  }

  function EncodeText(cs: seq<nat>): Bytes
    requires AllScalar(cs)
  {
    if cs == [] then [] else EncodeChar(cs[0]) + EncodeText(cs[1..])
  }

  lemma Sextet(q: nat, r: nat)
    requires r < 0x40
    ensures (0x40 * q + r) / 0x40 == q && (0x40 * q + r) % 0x40 == r
  {
  }

  lemma CharIsRead(c: nat)
    requires IsScalar(c)
    ensures var b := EncodeChar(c); HeadOf(b) == Char(|b|) && CodePoint(b) == c
  {
    var c1 := c / 0x40;
    var c2 := c1 / 0x40;
    var c3 := c2 / 0x40;
    assert c == 0x40 * c1 + c % 0x40 && c1 == 0x40 * c2 + c1 % 0x40 && c2 == 0x40 * c3 + c2 % 0x40;
  }

  lemma ReadIsChar(s: Bytes)
    requires s != [] && HeadOf(s).Char?
    ensures HeadOf(s).length <= |s| && IsScalar(CodePoint(s))
    ensures EncodeChar(CodePoint(s)) == s[..HeadOf(s).length]
  {
    match HeadOf(s).length
    case 1 =>
    case 2 => Sextet(s[0] as int - 0xC0, s[1] as int - 0x80);
    case 3 => ReadIsCharOfThree(s);
    case _ => ReadIsCharOfFour(s);
  }

  lemma ReadIsCharOfThree(s: Bytes)
    requires s != [] && HeadOf(s) == Char(3)
    ensures |s| >= 3 && IsScalar(CodePoint(s)) && EncodeChar(CodePoint(s)) == s[..3]
  {
    var c2 := s[0] as int - 0xE0;
    var c1 := 0x40 * c2 + (s[1] as int - 0x80);
    assert CodePoint(s) == 0x40 * c1 + (s[2] as int - 0x80);
    Sextet(c2, s[1] as int - 0x80);
    Sextet(c1, s[2] as int - 0x80);
  }

  lemma ReadIsCharOfFour(s: Bytes)
    requires s != [] && HeadOf(s) == Char(4)
    ensures |s| >= 4 && IsScalar(CodePoint(s)) && EncodeChar(CodePoint(s)) == s[..4]
  {
    var c3 := s[0] as int - 0xF0;
    var c2 := 0x40 * c3 + (s[1] as int - 0x80);
    var c1 := 0x40 * c2 + (s[2] as int - 0x80);
    assert CodePoint(s) == 0x40 * c1 + (s[3] as int - 0x80);
    Sextet(c3, s[1] as int - 0x80);
    Sextet(c2, s[2] as int - 0x80);
    Sextet(c1, s[3] as int - 0x80);
  }

  /** Every text that can be encoded is read back, */
  lemma {:induction false} EncodedIsText(cs: seq<nat>)
    requires AllScalar(cs)
    ensures IsText(EncodeText(cs)) && Decode(EncodeText(cs)) == cs
  {
    if cs != [] {
      var front, rest := EncodeChar(cs[0]), EncodeText(cs[1..]);
      CharIsRead(cs[0]);
      CharIsStable(front, rest);
      EncodedIsText(cs[1..]);
      assert (front + rest)[|front|..] == rest;
      assert [cs[0]] + cs[1..] == cs;
    }
  }

  /** and whatever is read is such an encoding. */
  lemma {:induction false} TextIsEncoded(s: Bytes)
    requires IsText(s)
    ensures AllScalar(Decode(s)) && EncodeText(Decode(s)) == s
  {
    if s != [] {
      var n := HeadOf(s).length;
      ReadIsChar(s);
      DecodeStep(s, n);
      TextIsEncoded(s[n..]);
      Rejoined(s, n, CodePoint(s), Decode(s[n..]), Decode(s));
    }
  }

  lemma Rejoined(s: Bytes, n: nat, c: nat, later: seq<nat>, all: seq<nat>)
    requires n <= |s| && IsScalar(c) && EncodeChar(c) == s[..n] && all == [c] + later
    requires AllScalar(later) && EncodeText(later) == s[n..]
    ensures AllScalar(all) && EncodeText(all) == s
  {
    EncodeStep(c, later);
    assert s == s[..n] + s[n..];
  }

  lemma DecodeStep(s: Bytes, n: nat)
    requires s != [] && IsText(s) && n == HeadOf(s).length
    ensures n <= |s| && IsText(s[n..]) && Decode(s) == [CodePoint(s)] + Decode(s[n..])
  {
  }

  lemma EncodeStep(c: nat, later: seq<nat>)
    requires IsScalar(c) && AllScalar(later)
    ensures AllScalar([c] + later) && EncodeText([c] + later) == EncodeChar(c) + EncodeText(later)
  {
    assert ([c] + later)[1..] == later;
  }

  /** A front is given up as broken exactly when nothing that may follow makes it text. */
  lemma BrokenIffHopeless(s: Bytes)
    ensures ScanOf(s).Broken? <==> forall t: Bytes :: !IsText(s + t)
  {
    if ScanOf(s).Broken? {
      forall t: Bytes ensures !IsText(s + t) {
        BrokenStays(s, t);
      }
    } else if ScanOf(s).Cut? {
      CutCanBeFinished(s, Completion(s[ScanOf(s).at..]));
    } else {
      assert s + [] == s;
      assert IsText(s + []);
    }
  }

  lemma CutCanBeFinished(s: Bytes, t: Bytes)
    requires ScanOf(s).Cut? && t == Completion(s[ScanOf(s).at..])
    ensures IsText(s + t)
  {
    CutMeaning(s);
    var front, start := s[..ScanOf(s).at], s[ScanOf(s).at..];
    CompletionIsText(start);
    CleanFront(front, start + t);
    assert front + start == s;
    Regroup(front, start, t);
  }

  /** Bytes that finish a character that was begun. */
  function Completion(start: Bytes): Bytes {
    if start == [] then []
    else if |start| > 1 then [0x80, 0x80, 0x80][..if Announced(start[0]) > |start| then Announced(start[0]) - |start| else 0]
    else
      var second: byte := if start[0] == 0xE0 then 0xA0 else if start[0] == 0xF0 then 0x90 else 0x80;
      [second] + [0x80, 0x80][..if Announced(start[0]) > 2 then Announced(start[0]) - 2 else 0]
  }

  lemma CompletionIsText(start: Bytes)
    requires start != [] && HeadOf(start) == Short
    ensures IsText(start + Completion(start))
  {
    var whole := start + Completion(start);
    assert |whole| == Announced(start[0]);
    assert HeadOf(whole) == Char(|whole|);
    assert whole[|whole|..] == [];
  }
}
