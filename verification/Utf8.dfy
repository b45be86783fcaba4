/** UTF-8 as section 4 of RFC 3629 defines it, read the way an incremental decoder reads it. */
module Utf8 {
  import opened Common

  /** The length a first byte announces; 0 for a byte that starts no character. */
  function Announced(b: byte): nat {
    if b < 0x80 then 1
    else if 0xC2 <= b <= 0xDF then 2
    else if 0xE0 <= b <= 0xEF then 3
    else if 0xF0 <= b <= 0xF4 then 4
    else 0
  }

  predicate IsTail(b: byte) {
    0x80 <= b <= 0xBF
  }

  /** The second byte excludes overlong forms, surrogates, and values above U+10FFFF. */
  predicate SecondFits(first: byte, second: byte) {
    && IsTail(second)
    && (first == 0xE0 ==> second >= 0xA0)
    && (first == 0xED ==> second <= 0x9F)
    && (first == 0xF0 ==> second >= 0x90)
    && (first == 0xF4 ==> second <= 0x8F)
  }

  datatype Head = Char(length: nat) | Short | Bad

  /** What the front of a non-empty byte string is: a whole character, the start of one, or neither. */
  function HeadOf(s: Bytes): Head
    requires s != []
  {
    var n := Announced(s[0]);
    if n == 0 then Bad
    else if n >= 2 && |s| >= 2 && !SecondFits(s[0], s[1]) then Bad
    else if n >= 3 && |s| >= 3 && !IsTail(s[2]) then Bad
    else if n >= 4 && |s| >= 4 && !IsTail(s[3]) then Bad
    else if |s| < n then Short
    else Char(n)
  }

  datatype Scan = Clean | Cut(at: nat) | Broken(at: nat)

  function Shift(r: Scan, k: nat): Scan {
    match r
    case Clean => Clean
    case Cut(i) => Cut(i + k)
    case Broken(i) => Broken(i + k)
  }

  /** Read characters from the front until the end, an unfinished character, or an error. */
  function ScanOf(s: Bytes): (r: Scan)
    ensures r.Cut? ==> r.at < |s|
    ensures r.Broken? ==> r.at < |s|
  {
    if s == [] then Clean else
      match HeadOf(s)
      case Char(n) => Shift(ScanOf(s[n..]), n)
      case Short => Cut(0)
      case Bad => Broken(0)
  }

  predicate IsText(s: Bytes) {
    ScanOf(s) == Clean
  }

  function CodePoint(s: Bytes): nat
    requires s != [] && HeadOf(s).Char?
  {
    var b := (i: nat) requires i < |s| => s[i] as int;
    match HeadOf(s).length
    case 1 => b(0)
    case 2 => (b(0) - 0xC0) * 0x40 + (b(1) - 0x80)
    case 3 => (b(0) - 0xE0) * 0x1000 + (b(1) - 0x80) * 0x40 + (b(2) - 0x80)
    case _ => (b(0) - 0xF0) * 0x40000 + (b(1) - 0x80) * 0x1000 + (b(2) - 0x80) * 0x40 + (b(3) - 0x80)
  }

  function Decode(s: Bytes): seq<nat>
    requires IsText(s)
  {
    if s == [] then [] else
      var n := HeadOf(s).length;
      [CodePoint(s)] + Decode(s[n..])
  }

  // ---- reading on ----

  lemma CharIsStable(a: Bytes, b: Bytes)
    requires a != [] && HeadOf(a).Char?
    ensures HeadOf(a + b) == HeadOf(a) && (HeadOf(a).length <= |a|) && CodePoint(a + b) == CodePoint(a)
  {
    assert (a + b)[..|a|] == a;
  }

  lemma BadIsStable(a: Bytes, b: Bytes)
    requires a != [] && HeadOf(a) == Bad
    ensures HeadOf(a + b) == Bad
  {
  }

  /** A clean front is read first and leaves the rest to be read on its own. */
  lemma {:induction false} CleanFront(a: Bytes, b: Bytes)
    requires IsText(a)
    ensures ScanOf(a + b) == Shift(ScanOf(b), |a|)
  {
    if a == [] {
      assert a + b == b;
      assert Shift(ScanOf(b), 0) == ScanOf(b);
    } else {
      var n := HeadOf(a).length;
      CharIsStable(a, b);
      assert (a + b)[n..] == a[n..] + b;
      CleanFront(a[n..], b);
    }
  }

  lemma {:induction false} DecodeAppend(a: Bytes, b: Bytes)
    requires IsText(a) && IsText(b)
    ensures IsText(a + b) && Decode(a + b) == Decode(a) + Decode(b)
  {
    CleanFront(a, b);
    if a == [] {
      assert a + b == b;
    } else {
      var n := HeadOf(a).length;
      CharIsStable(a, b);
      assert (a + b)[n..] == a[n..] + b;
      DecodeAppend(a[n..], b);
    }
  }

  /** Where a scan was cut, everything before is clean and the rest is the start of one character. */
  lemma {:induction false} CutMeaning(s: Bytes)
    requires ScanOf(s).Cut?
    ensures var k := ScanOf(s).at; IsText(s[..k]) && HeadOf(s[k..]) == Short && |s| - k < 4
  {
    if HeadOf(s).Char? {
      var n := HeadOf(s).length;
      var k, rest := ScanOf(s).at, s[n..];
      CutMeaning(rest);
      CutTwice(s, n, k, rest);
      OneChar(s, n);
      CleanFront(s[..n], rest[..k - n]);
    } else {
      assert s[..0] == [] && s[0..] == s;
    }
  }

  lemma OneChar(s: Bytes, n: nat)
    requires s != [] && HeadOf(s) == Char(n) && n <= |s|
    ensures IsText(s[..n]) && HeadOf(s[..n]) == Char(n)
  {
    assert s[..n][n..] == [];
  }

  lemma {:induction false} BrokenStays(a: Bytes, b: Bytes)
    requires ScanOf(a).Broken?
    ensures ScanOf(a + b).Broken?
  {
    if HeadOf(a).Char? {
      var n := HeadOf(a).length;
      CharIsStable(a, b);
      assert (a + b)[n..] == a[n..] + b;
      BrokenStays(a[n..], b);
    } else {
      BadIsStable(a, b);
    }
  }

  /** A prefix of valid text is valid up to at most three bytes of one unfinished character. */
  lemma PrefixOfIsText(a: Bytes, b: Bytes)
    requires IsText(a + b)
    ensures !ScanOf(a).Broken?
    ensures IsText(a) ==> IsText(b)
  {
    if ScanOf(a).Broken? {
      BrokenStays(a, b);
    }
    if IsText(a) {
      CleanFront(a, b);
    }
  }

  // ---- the incremental validator ----

  /** Scanning on from a clean front gives the verdict on the whole. */
  lemma ScanOn(clean: Bytes, data: Bytes)
    requires IsText(clean)
    ensures ScanOf(clean + data).Broken? <==> ScanOf(data).Broken?
    ensures IsText(clean + data) <==> IsText(data)
    ensures ScanOf(data).Cut? ==>
              var k := ScanOf(data).at;
              IsText(clean + data[..k]) && (clean + data[..k]) + data[k..] == clean + data && HeadOf(data[k..]) == Short
  {
    CleanFront(clean, data);
    if ScanOf(data).Cut? {
      CutMeaning(data);
      CleanFront(clean, data[..ScanOf(data).at]);
      var front, back := data[..ScanOf(data).at], data[ScanOf(data).at..];
      assert data == front + back;
      Regroup(clean, front, back);
    }
  }

  /** `Utf8Validator`: fed chunk by chunk, it keeps only the unfinished tail, and its verdict is the verdict
      on everything fed so far. */
  class Utf8Validator {
    var pending: Bytes
    ghost var clean: Bytes

    constructor ()
      ensures Valid() && Fed() == []
    {
      pending, clean := [], [];
    }

    ghost function Fed(): Bytes
      reads this
    {
      clean + pending
    }

    ghost predicate Valid()
      reads this
    {
      IsText(clean) && 0 !in clean && 0 !in pending && (pending != [] ==> HeadOf(pending) == Short)
    }

    method Feed(chunk: Bytes, final: bool) returns (ok: bool)
      requires Valid()
      modifies this
      ensures ok ==> Valid() && Fed() == old(Fed()) + chunk
      ensures ok <==>
                var all := old(Fed()) + chunk;
                0 !in all && !ScanOf(all).Broken? && (final ==> IsText(all))
    {
      var data := pending + chunk;
      assert old(Fed()) + chunk == clean + data;
      ScanOn(clean, data);
      if 0 in chunk {
        return false;
      }
      match ScanOf(data)
      case Broken(_) =>
        return false;
      case Clean =>
        clean, pending := clean + data, [];
        return true;
      case Cut(k) =>
        if final {
          return false;
        }
        clean, pending := clean + data[..k], data[k..];
        return true;
    }
  }
}
