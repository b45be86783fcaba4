/** `read` with an explicit byte offset: one bounded page, and the reader that follows `next_offset`. */
module Paging {
  import opened Common
  import opened Utf8
  import opened Utf8Encoding

  datatype ReadError = InvalidUtf8 | OutsideFile | NotAtBoundary

  datatype Page = Page(text: seq<nat>, nextOffset: nat, truncated: bool)

  /** How many leading bytes form whole characters. */
  function WholeChars(raw: Bytes): (n: nat)
    requires !ScanOf(raw).Broken?
    ensures n <= |raw|
  {
    if ScanOf(raw).Cut? then ScanOf(raw).at else |raw|
  }

  lemma ShortStays(s: Bytes, k: nat)
    requires s != [] && HeadOf(s) == Short && 0 < k <= |s|
    ensures HeadOf(s[..k]) == Short
  {
  }

  lemma {:induction false} WholeCharsIsLongest(raw: Bytes, k: nat)
    requires !ScanOf(raw).Broken? && k <= |raw|
    ensures IsText(raw[..WholeChars(raw)])
    ensures IsText(raw[..k]) ==> k <= WholeChars(raw)
  {
    assert raw[..|raw|] == raw;
    if ScanOf(raw).Cut? {
      CutMeaning(raw);
      var n := ScanOf(raw).at;
      if k > n {
        var rest := raw[n..];
        CutTwice(raw, n, k, rest);
        CleanFront(raw[..n], rest[..k - n]);
        ShortStays(rest, k - n);
      }
    }
  }

  /** `_decode_bounded`: drop an unfinished last character, refuse anything else that is not UTF-8. */
  method DecodeBounded(raw: Bytes) returns (r: Result<(seq<nat>, nat), ReadError>)
    ensures r.Err? <==> ScanOf(raw).Broken?
    ensures r.Ok? ==> r.value.1 == WholeChars(raw) && IsText(raw[..r.value.1]) && r.value.0 == Decode(raw[..r.value.1])
  {
    var candidate := raw;
    while candidate != []
      invariant candidate == raw || (ScanOf(raw).Cut? && candidate == raw[..ScanOf(raw).at] && IsText(candidate))
      decreases |candidate|
    {
      match ScanOf(candidate)
      case Clean =>
        assert raw[..|candidate|] == candidate;
        return Ok((Decode(candidate), |candidate|));
      case Cut(start) =>
        CutMeaning(candidate);
        candidate := candidate[..start];
      case Broken(_) =>
        return Err(InvalidUtf8);
    }
    assert raw[..0] == [];
    return Ok(([], 0));
  }

  predicate Readable(file: Bytes) {
    IsText(file) && 0 !in file
  }

  lemma InsideOneChar(s: Bytes, n: nat, i: nat)
    requires s != [] && HeadOf(s) == Char(n) && 0 < i < n
    ensures n <= |s| && !IsText(s[..i]) && IsTail(s[i])
  {
    assert HeadOf(s[..i]) == Short;
  }

  /** In valid text the bytes that may not start a page are exactly the continuation bytes. */
  lemma {:induction false} BoundaryIsNoTailByte(file: Bytes, i: nat)
    requires IsText(file) && i <= |file|
    ensures IsText(file[..i]) <==> (i == |file| || !IsTail(file[i]))
  {
    if i == 0 {
      assert file[..0] == [];
    } else {
      var n := HeadOf(file).length;
      if i < n {
        InsideOneChar(file, n, i);
      } else {
        var rest := file[n..];
        BoundaryIsNoTailByte(rest, i - n);
        OneChar(file, n);
        CutTwice(file, n, i, rest);
        CleanFront(file[..n], rest[..i - n]);
      }
    }
  }

  predicate Boundary(file: Bytes, i: nat) {
    i <= |file| && IsText(file[..i])
  }

  function Window(file: Bytes, offset: nat, limit: nat): Bytes
    requires offset <= |file|
  {
    if offset + limit <= |file| then file[offset..offset + limit] else file[offset..]
  }

  lemma WindowIsNeverBroken(file: Bytes, offset: nat, limit: nat)
    requires IsText(file) && Boundary(file, offset)
    ensures IsText(file[offset..]) && !ScanOf(Window(file, offset, limit)).Broken?
  {
    assert file == file[..offset] + file[offset..];
    PrefixOfIsText(file[..offset], file[offset..]);
    var raw := Window(file, offset, limit);
    assert file[offset..] == raw + file[offset..][|raw|..];
    PrefixOfIsText(raw, file[offset..][|raw|..]);
  }

  /** The page a reader gets at `offset`. */
  function PageAt(file: Bytes, offset: nat, limit: nat): Page
    requires Readable(file) && Boundary(file, offset)
  {
    WindowIsNeverBroken(file, offset, limit);
    var raw := Window(file, offset, limit);
    var n := WholeChars(raw);
    WholeCharsIsLongest(raw, n);
    Page(Decode(raw[..n]), offset + n, offset + n < |file|)
  }

  /** The offset form of `read`: which requests fail, and the page of those that do not. */
  method Read(file: Bytes, offset: nat, limit: nat) returns (r: Result<Page, ReadError>)
    ensures r.Ok? <==> Readable(file) && Boundary(file, offset)
    ensures r.Ok? ==> r.value == PageAt(file, offset, limit)
    ensures r == Err(InvalidUtf8) <==> !Readable(file)
    ensures r == Err(OutsideFile) <==> Readable(file) && offset > |file|
  {
    var validator := new Utf8Validator();
    var ok := validator.Feed(file, true);
    assert [] + file == file;
    if !ok {
      return Err(InvalidUtf8);
    }
    if offset > |file| {
      return Err(OutsideFile);
    }
    BoundaryIsNoTailByte(file, offset);
    if offset < |file| && IsTail(file[offset]) {
      return Err(NotAtBoundary);
    }
    WindowIsNeverBroken(file, offset, limit);
    var raw := Window(file, offset, limit);
    var decoded := DecodeBounded(raw);
    var (text, consumed) := decoded.value;
    return Ok(Page(text, offset + consumed, offset + consumed < |file|));
  }

  lemma FirstMustFit(rest: Bytes, n: nat)
    requires rest != [] && HeadOf(rest).Char? && n <= |rest|
    ensures IsText(rest[..n]) && n > 0 ==> HeadOf(rest).length <= n
  {
  }

  /** A page shows exactly the characters between its two offsets, ends where the next may begin, stays within
      the limit, and stands still exactly when the character in front of it does not fit. */
  lemma PageMeaning(file: Bytes, offset: nat, limit: nat)
    requires Readable(file) && Boundary(file, offset)
    ensures var page := PageAt(file, offset, limit);
            && offset <= page.nextOffset <= offset + limit
            && Boundary(file, page.nextOffset)
            && IsText(file[offset..page.nextOffset])
            && page.text == Decode(file[offset..page.nextOffset])
            && (page.nextOffset == offset <==> offset == |file| || Announced(file[offset]) > limit)
  {
    WindowIsNeverBroken(file, offset, limit);
    var raw := Window(file, offset, limit);
    var n := WholeChars(raw);
    PageEndsOnBoundary(file, offset, limit, raw, n);
    if offset < |file| {
      PageStalls(file[offset..], limit, raw, n);
    }
  }

  /** A page is as long as it may be: no offset behind its end and within the limit is a character boundary. So a page
      ends at the end of the file when the file ends within the limit, and is not called truncated then. */
  lemma PageIsLongest(file: Bytes, offset: nat, limit: nat)
    requires Readable(file) && Boundary(file, offset)
    ensures var page := PageAt(file, offset, limit);
            && (forall k :: page.nextOffset < k <= offset + limit && k <= |file| ==> !IsText(file[..k]))
            && (|file| - offset <= limit ==> page.nextOffset == |file|)
            && (page.truncated <==> page.nextOffset < |file|)
  {
    WindowIsNeverBroken(file, offset, limit);
    var raw := Window(file, offset, limit);
    var n := WholeChars(raw);
    assert raw == file[offset..offset + |raw|];
    forall k | offset + n < k <= offset + limit && k <= |file| ensures !IsText(file[..k]) {
      if IsText(file[..k]) {
        FrontJoined(file, offset, raw, k);
        TextBehindText(file[..offset], raw, k - offset);
      }
    }
    if |file| - offset <= limit {
      assert file[..|file|] == file;
    }
  }

  lemma FrontJoined(file: Bytes, offset: nat, raw: Bytes, k: nat)
    requires offset <= k <= offset + |raw| <= |file| && raw == file[offset..offset + |raw|]
    ensures file[..k] == file[..offset] + raw[..k - offset]
  {
  }

  lemma TextBehindText(front: Bytes, raw: Bytes, n: nat)
    requires IsText(front) && !ScanOf(raw).Broken? && n <= |raw| && IsText(front + raw[..n])
    ensures n <= WholeChars(raw)
  {
    PrefixOfIsText(front, raw[..n]);
    WholeCharsIsLongest(raw, n);
  }

  lemma PageEndsOnBoundary(file: Bytes, offset: nat, limit: nat, raw: Bytes, n: nat)
    requires IsText(file) && Boundary(file, offset) && raw == Window(file, offset, limit)
    requires !ScanOf(raw).Broken? && n == WholeChars(raw)
    ensures raw[..n] == file[offset..offset + n] && IsText(raw[..n]) && Boundary(file, offset + n)
  {
    WholeCharsIsLongest(raw, n);
    assert raw[..n] == file[offset..offset + n];
    assert file[..offset + n] == file[..offset] + raw[..n];
    CleanFront(file[..offset], raw[..n]);
  }

  /** No character fits in the window exactly when the first does not. */
  lemma PageStalls(rest: Bytes, limit: nat, raw: Bytes, n: nat)
    requires rest != [] && IsText(rest) && raw == rest[..if limit <= |rest| then limit else |rest|]
    requires !ScanOf(raw).Broken? && n == WholeChars(raw)
    ensures n == 0 <==> Announced(rest[0]) > limit
  {
    WholeCharsIsLongest(raw, n);
    var first := HeadOf(rest).length;
    if first <= limit {
      OneChar(rest, first);
      assert raw[..first] == rest[..first];
      WholeCharsIsLongest(raw, first);
    }
    FirstMustFit(rest, n);
    assert rest[..n] == raw[..n];
  }

  /** Reading on from `offset` until a page is not truncated; `None` for a reader that stops advancing. */
  function ReadOn(file: Bytes, offset: nat, limit: nat): Option<seq<nat>>
    requires Readable(file) && Boundary(file, offset)
    decreases |file| - offset
  {
    PageMeaning(file, offset, limit);
    var page := PageAt(file, offset, limit);
    if !page.truncated then Some(page.text)
    else if page.nextOffset == offset then None
    else match ReadOn(file, page.nextOffset, limit)
      case Some(later) => Some(page.text + later)
      case None => None
  }

  /** Every character of the text takes at most `limit` bytes. */
  predicate CharsFit(s: Bytes, limit: nat)
    requires IsText(s)
  {
    s == [] || (HeadOf(s).length <= limit && CharsFit(s[HeadOf(s).length..], limit))
  }

  /** That is: the encoding of every character of the text does. */
  lemma {:induction false} CharsFitIff(s: Bytes, limit: nat)
    requires IsText(s)
    ensures AllScalar(Decode(s))
    ensures CharsFit(s, limit) <==> forall i :: 0 <= i < |Decode(s)| ==> |EncodeChar(Decode(s)[i])| <= limit
  {
    TextIsEncoded(s);
    if s != [] {
      var n := HeadOf(s).length;
      ReadIsChar(s);
      DecodeStep(s, n);
      CharsFitIff(s[n..], limit);
      FirstOrLater(CodePoint(s), Decode(s[n..]), Decode(s), limit);
    }
  }

  lemma FirstOrLater(c: nat, later: seq<nat>, all: seq<nat>, limit: nat)
    requires all == [c] + later && AllScalar(all) && AllScalar(later)
    ensures IsScalar(c)
    ensures (forall i :: 0 <= i < |all| ==> |EncodeChar(all[i])| <= limit) <==>
            |EncodeChar(c)| <= limit && forall i :: 0 <= i < |later| ==> |EncodeChar(later[i])| <= limit
  {
    assert all[0] == c;
    assert forall i :: 0 <= i < |later| ==> all[i + 1] == later[i];
  }

  lemma {:induction false} FourBytesFitAnyChar(s: Bytes, limit: nat)
    requires IsText(s) && limit >= 4
    ensures CharsFit(s, limit)
  {
    if s != [] {
      FourBytesFitAnyChar(s[HeadOf(s).length..], limit);
    }
  }

  lemma {:induction false} CharsFitAppend(a: Bytes, b: Bytes, limit: nat)
    requires IsText(a) && IsText(b)
    ensures IsText(a + b)
    ensures CharsFit(a + b, limit) <==> CharsFit(a, limit) && CharsFit(b, limit)
  {
    CleanFront(a, b);
    if a == [] {
      assert a + b == b;
    } else {
      var n, whole := HeadOf(a).length, a + b;
      CharIsStable(a, b);
      var rest := a[n..];
      CharsFitAppend(rest, b, limit);
      assert whole[n..] == rest + b;
      CharsFitStep(a, n, rest, limit);
      CharsFitStep(whole, n, rest + b, limit);
    }
  }

  lemma CharsFitStep(s: Bytes, n: nat, rest: Bytes, limit: nat)
    requires s != [] && IsText(s) && HeadOf(s) == Char(n) && n <= |s| && rest == s[n..]
    ensures IsText(rest) && (CharsFit(s, limit) <==> n <= limit && CharsFit(rest, limit))
  {
  }

  lemma {:induction false} ShortTextFits(s: Bytes, limit: nat)
    requires IsText(s) && |s| <= limit
    ensures CharsFit(s, limit)
  {
    if s != [] {
      ShortTextFits(s[HeadOf(s).length..], limit);
    }
  }

  /** How the rest of the file splits at the end of a page. */
  lemma SplitAtPage(file: Bytes, offset: nat, next: nat, limit: nat)
    requires IsText(file) && Boundary(file, offset) && Boundary(file, next) && offset <= next <= offset + limit
    requires IsText(file[offset..next])
    ensures IsText(file[offset..]) && IsText(file[next..])
    ensures Decode(file[offset..]) == Decode(file[offset..next]) + Decode(file[next..])
    ensures CharsFit(file[offset..], limit) <==> CharsFit(file[next..], limit)
  {
    assert file == file[..next] + file[next..];
    PrefixOfIsText(file[..next], file[next..]);
    assert file[offset..] == file[offset..next] + file[next..];
    DecodeAppend(file[offset..next], file[next..]);
    ShortTextFits(file[offset..next], limit);
    CharsFitAppend(file[offset..next], file[next..], limit);
  }

  /** Following `next_offset` from any boundary ends, with all the text from there on, exactly when no character
      from there on is longer than the limit; four bytes always suffice. */
  lemma {:induction false} PagesCoverTheFile(file: Bytes, offset: nat, limit: nat)
    requires Readable(file) && Boundary(file, offset)
    ensures IsText(file[offset..])
    ensures ReadOn(file, offset, limit).Some? <==> CharsFit(file[offset..], limit)
    ensures ReadOn(file, offset, limit).Some? ==> ReadOn(file, offset, limit).value == Decode(file[offset..])
    ensures limit >= 4 ==> ReadOn(file, offset, limit).Some?
    decreases |file| - offset
  {
    PageMeaning(file, offset, limit);
    var next := PageAt(file, offset, limit).nextOffset;
    SplitAtPage(file, offset, next, limit);
    if next < |file| && next > offset {
      PagesCoverTheFile(file, next, limit);
    }
    if limit >= 4 {
      FourBytesFitAnyChar(file[offset..], limit);
    }
  }
}
