/** Replacing bytes in a UTF-8 file is replacing characters in its text. */
module EditMeaning {
  import opened Common
  import opened Utf8
  import opened Replacing

  lemma CodePointRange(s: Bytes)
    requires s != [] && HeadOf(s).Char?
    ensures var n, c := HeadOf(s).length, CodePoint(s);
            && (n == 1 <==> c < 0x80)
            && (n == 2 <==> 0x80 <= c < 0x800)
            && (n == 3 <==> 0x800 <= c < 0x10000)
            && (n == 4 <==> 0x10000 <= c)
  {
  }

  /** A character has one encoding. */
  lemma CodePointNamesItsBytes(a: Bytes, b: Bytes)
    requires a != [] && HeadOf(a).Char? && b != [] && HeadOf(b).Char?
    requires CodePoint(a) == CodePoint(b)
    ensures HeadOf(a) == HeadOf(b)
    ensures a[..HeadOf(a).length] == b[..HeadOf(a).length]
  {
    CodePointRange(a);
    CodePointRange(b);
    var n := HeadOf(a).length;
    if n == 4 {
      SameDigits(a[0] as int, a[1] as int, a[2] as int, a[3] as int, b[0] as int, b[1] as int, b[2] as int, b[3] as int);
    }
  }

  /** Payloads of six bits each are determined by the number they spell. */
  lemma SameDigits(a: int, b: int, c: int, d: int, a': int, b': int, c': int, d': int)
    requires 0x80 <= b < 0xC0 && 0x80 <= c < 0xC0 && 0x80 <= d < 0xC0
    requires 0x80 <= b' < 0xC0 && 0x80 <= c' < 0xC0 && 0x80 <= d' < 0xC0
    requires a * 0x40000 + b * 0x1000 + c * 0x40 + d == a' * 0x40000 + b' * 0x1000 + c' * 0x40 + d'
    ensures a == a' && b == b' && c == c' && d == d'
  {
  }

  lemma SameHead(p: Bytes, s: Bytes)
    requires IsText(p) && IsText(s) && p != [] && p <= s
    ensures HeadOf(p) == HeadOf(s) && CodePoint(p) == CodePoint(s)
    ensures p[HeadOf(p).length..] <= s[HeadOf(p).length..]
  {
    CharIsStable(p, s[|p|..]);
    assert p + s[|p|..] == s;
  }

  /** One text starts with another exactly when its bytes start with the other's bytes. */
  lemma {:induction false} PrefixInBytesIsPrefixInText(p: Bytes, s: Bytes)
    requires IsText(p) && IsText(s)
    ensures p <= s <==> Decode(p) <= Decode(s)
    ensures p <= s ==> IsText(s[|p|..]) && Decode(s[|p|..]) == Decode(s)[|Decode(p)|..]
    decreases |p|, 1
  {
    if p == [] {
      assert s[0..] == s && Decode(s)[0..] == Decode(s);
    } else if s != [] {
      if p <= s {
        SameHead(p, s);
        PrefixStep(p, s);
      } else if CodePoint(p) == CodePoint(s) {
        CodePointNamesItsBytes(p, s);
        PrefixStep(p, s);
      } else {
        assert Decode(p)[0] == CodePoint(p) && Decode(s)[0] == CodePoint(s);
      }
    }
  }

  lemma {:induction false} PrefixStep(p: Bytes, s: Bytes)
    requires IsText(p) && IsText(s) && p != [] && s != []
    requires HeadOf(p) == HeadOf(s) && CodePoint(p) == CodePoint(s)
    requires p[..HeadOf(p).length] == s[..HeadOf(p).length]
    ensures p <= s <==> Decode(p) <= Decode(s)
    ensures p <= s ==> IsText(s[|p|..]) && Decode(s[|p|..]) == Decode(s)[|Decode(p)|..]
    decreases |p|, 0
  {
    var n := HeadOf(p).length;
    var front, a, b := p[..n], p[n..], s[n..];
    PrefixInBytesIsPrefixInText(a, b);
    CutTwice(p, n, n, a);
    CutTwice(s, n, n, b);
    SharedFront(front, a, b);
    SharedFront([CodePoint(p)], Decode(a), Decode(b));
  }

  lemma SharedFront<T>(front: seq<T>, a: seq<T>, b: seq<T>)
    ensures front + a <= front + b <==> a <= b
    ensures a <= b ==> (front + b)[|front + a|..] == b[|a|..]
  {
    if front + a <= front + b {
      assert (front + a)[|front|..] == a && (front + b)[|front|..] == b;
    }
    if a <= b {
      assert b == a + b[|a|..];
      assert front + b == (front + a) + b[|a|..];
    }
  }

  lemma NoMatchInsideACharacter(s: Bytes, p: Bytes, j: nat)
    requires s != [] && HeadOf(s).Char? && 0 < j < HeadOf(s).length
    requires IsText(p) && p != []
    ensures !(p <= s[j..])
  {
    assert s[j..][0] == s[j];
  }

  /** For text replaced in a text file the result is again UTF-8, and its characters are the file's characters with
      the old ones replaced: no match falls inside a character and none is missed. */
  lemma {:induction false} BytesReplaceIsTextReplace(s: Bytes, old_: Bytes, new_: Bytes)
    requires IsText(s) && IsText(old_) && IsText(new_) && old_ != []
    ensures IsText(Replace(s, old_, new_))
    ensures Decode(Replace(s, old_, new_)) == Replace(Decode(s), Decode(old_), Decode(new_))
    ensures Count(s, old_) == Count(Decode(s), Decode(old_))
    decreases |s|
  {
    PrefixInBytesIsPrefixInText(old_, s);
    if old_ <= s {
      var later := s[|old_|..];
      BytesReplaceIsTextReplace(later, old_, new_);
      DecodeAppend(new_, Replace(later, old_, new_));
    } else if s != [] {
      var n := HeadOf(s).length;
      var later := s[n..];
      BytesReplaceIsTextReplace(later, old_, new_);
      forall j: nat | j < n ensures !(old_ <= s[j..]) {
        if j == 0 {
          assert s[0..] == s;
        } else {
          NoMatchInsideACharacter(s, old_, j);
        }
      }
      SkipUnmatched(s, old_, new_, n);
      OneChar(s, n);
      DecodeAppend(s[..n], Replace(later, old_, new_));
      DecodeOne(s, n);
      assert Decode(s)[0] == CodePoint(s) && Decode(s)[1..] == Decode(later);
    }
  }

  lemma DecodeOne(s: Bytes, n: nat)
    requires s != [] && HeadOf(s) == Char(n) && n <= |s|
    ensures IsText(s[..n]) && Decode(s[..n]) == [CodePoint(s)]
  {
    OneChar(s, n);
    assert s[..n][n..] == [];
    CharIsStable(s[..n], s[n..]);
    assert s[..n] + s[n..] == s;
  }
}
