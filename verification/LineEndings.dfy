/** Line ends under replacement: the other convention tried by `edit`, and the line count its shrink guard predicts. */
module LineEndings {
  import opened Common
  import opened Replacing

  const LF: byte := 10
  const CR: byte := 13

  function ToUnix(s: Bytes): Bytes {
    Replace(s, [CR, LF], [LF])
  }

  /** Every carriage return that stands before a line feed goes, and nothing else does: up to the first such pair the
      text stays, the pair becomes a line feed, and the rest is treated likewise. */
  lemma ToUnixMeaning(a: Bytes, b: Bytes)
    requires forall j :: 0 <= j < |a| - 1 ==> !(a[j] == 13 && a[j + 1] == 10)
    ensures ToUnix(a) == a
    ensures ToUnix(a + ([13, 10] + b)) == a + ([10] + ToUnix(b))
  {
    forall j: nat | j < |a| ensures !([CR, LF] <= a[j..]) {
      assert a[j..][0] == a[j] && (j + 1 < |a| ==> a[j..][1] == a[j + 1]);
    }
    NoPlaceNoChange(a, [CR, LF], [LF]);
    var whole := a + ([CR, LF] + b);
    forall j: nat | j < |a| ensures !([CR, LF] <= whole[j..]) {
      assert whole[j..][0] == whole[j] == a[j] && whole[j..][1] == whole[j + 1];
    }
    assert whole[|a|..] == [CR, LF] + b;
    FirstPlaceIsReplaced(whole, [CR, LF], [LF], |a|);
    assert whole[|a| + 2..] == b && whole[..|a|] == a;
  }

  function ToDos(s: Bytes): Bytes {
    Replace(ToUnix(s), [LF], [CR, LF])
  }

  /** `_line_ending_variant`: both strings in the other convention, when the old one spans a line break. */
  function Variant(old_: Bytes, new_: Bytes): Option<(Bytes, Bytes)> {
    if Count(old_, [CR, LF]) > 0 then Some((ToUnix(old_), ToUnix(new_)))
    else if LF in old_ then Some((Replace(old_, [LF], [CR, LF]), ToDos(new_)))
    else None
  }

  lemma VariantKeepsOldNonEmpty(old_: Bytes, new_: Bytes)
    requires old_ != [] && Variant(old_, new_).Some?
    ensures Variant(old_, new_).value.0 != []
  {
    TranslationKeepsTheLastByte(old_);
  }

  predicate EndsInCr(s: Bytes) {
    s != [] && s[|s| - 1] == CR
  }

  lemma {:induction false} TranslationKeepsTheLastByte(s: Bytes)
    ensures EndsInCr(ToUnix(s)) <==> EndsInCr(s)
    ensures EndsInCr(Replace(s, [LF], [CR, LF])) <==> EndsInCr(s)
    ensures s != [] ==> ToUnix(s) != [] && Replace(s, [LF], [CR, LF]) != []
  {
    ToUnixKeepsTheLastByte(s);
    ToDosKeepsTheLastByte(s);
  }

  lemma EndOfAppend(front: Bytes, back: Bytes)
    ensures EndsInCr(front + back) <==> if back == [] then EndsInCr(front) else EndsInCr(back)
  {
  }

  lemma {:induction false} ToUnixKeepsTheLastByte(s: Bytes)
    ensures EndsInCr(ToUnix(s)) <==> EndsInCr(s)
    ensures s != [] ==> ToUnix(s) != []
    decreases |s|
  {
    if [CR, LF] <= s {
      ToUnixKeepsTheLastByte(s[2..]);
      assert s == [CR, LF] + s[2..];
      assert ToUnix(s) == [LF] + ToUnix(s[2..]);
      EndOfAppend([CR, LF], s[2..]);
      EndOfAppend([LF], ToUnix(s[2..]));
    } else if s != [] {
      ToUnixKeepsTheLastByte(s[1..]);
      assert s == [s[0]] + s[1..];
      assert ToUnix(s) == [s[0]] + ToUnix(s[1..]);
      EndOfAppend([s[0]], s[1..]);
      EndOfAppend([s[0]], ToUnix(s[1..]));
    }
  }

  lemma {:induction false} ToDosKeepsTheLastByte(s: Bytes)
    ensures EndsInCr(Replace(s, [LF], [CR, LF])) <==> EndsInCr(s)
    ensures s != [] ==> Replace(s, [LF], [CR, LF]) != []
  {
    if s != [] {
      var later := Replace(s[1..], [LF], [CR, LF]);
      ToDosKeepsTheLastByte(s[1..]);
      assert s == [s[0]] + s[1..];
      var front := if s[0] == LF then [CR, LF] else [s[0]];
      assert Replace(s, [LF], [CR, LF]) == front + later;
      EndOfAppend([s[0]], s[1..]);
      EndOfAppend(front, later);
    }
  }

  // ---- a file that ends its lines with CR LF ----

  /** Every line feed follows a carriage return; `after` says whether the byte before the text is one. */
  predicate Returned(after: bool, s: Bytes)
    decreases |s|
  {
    s == [] || ((s[0] == LF ==> after) && Returned(s[0] == CR, s[1..]))
  }

  /** Every carriage return is followed by a line feed. */
  predicate NoLoneCr(s: Bytes) {
    s == [] || ((s[0] == CR ==> |s| > 1 && s[1] == LF) && NoLoneCr(s[1..]))
  }

  predicate DosFile(s: Bytes) {
    Returned(false, s) && NoLoneCr(s)
  }

  function CrAfter(after: bool, s: Bytes): bool {
    if s == [] then after else EndsInCr(s)
  }

  lemma {:induction false} ReturnedAppend(after: bool, a: Bytes, b: Bytes)
    ensures Returned(after, a + b) <==> Returned(after, a) && Returned(CrAfter(after, a), b)
    decreases |a|
  {
    if a == [] {
      assert a + b == b;
    } else {
      assert (a + b)[1..] == a[1..] + b;
      ReturnedAppend(a[0] == CR, a[1..], b);
    }
  }

  lemma {:induction false} ReturnedWeakens(after: bool, s: Bytes)
    requires Returned(false, s)
    ensures Returned(after, s)
  {
  }

  lemma {:induction false} DosIsReturned(s: Bytes)
    ensures Returned(false, Replace(s, [LF], [CR, LF]))
  {
    if s != [] {
      var later := Replace(s[1..], [LF], [CR, LF]);
      DosIsReturned(s[1..]);
      ReturnedWeakens(s[0] == CR, later);
      if s[0] == LF {
        assert Replace(s, [LF], [CR, LF]) == [CR, LF] + later;
        ReturnedAppend(false, [CR, LF], later);
        assert Returned(false, [CR, LF]);
      } else {
        assert Replace(s, [LF], [CR, LF]) == [s[0]] + later;
      }
    }
  }

  lemma {:induction false} LoneCrSuffix(s: Bytes, k: nat)
    requires NoLoneCr(s) && k <= |s|
    ensures NoLoneCr(s[k..])
    ensures 0 < k && s[k - 1] == CR ==> k < |s| && s[k] == LF
  {
    if k == 0 {
      assert s[0..] == s;
    } else {
      LoneCrSuffix(s[1..], k - 1);
      assert s[1..][k - 1..] == s[k..];
    }
  }

  /** Replacing keeps the convention where the replaced string does not end inside a line break, or its
      replacement ends there too. */
  lemma {:induction false} ReturnedIsKept(s: Bytes, was: bool, now: bool, old_: Bytes, new_: Bytes)
    requires old_ != [] && Returned(false, new_)
    requires Returned(was, s) && (s != [] && s[0] == LF ==> now)
    requires !EndsInCr(old_) || EndsInCr(new_)
    ensures Returned(now, Replace(s, old_, new_))
    decreases |s|
  {
    if old_ <= s {
      var t := s[|old_|..];
      assert s == old_ + t;
      ReturnedAppend(was, old_, t);
      ReturnedIsKept(t, CrAfter(was, old_), CrAfter(now, new_), old_, new_);
      ReturnedWeakens(now, new_);
      ReturnedAppend(now, new_, Replace(t, old_, new_));
    } else if s != [] {
      ReturnedIsKept(s[1..], s[0] == CR, s[0] == CR, old_, new_);
    }
  }

  /** Where the replaced string ends inside a line break and its replacement does not, a bare line feed is left. */
  lemma {:induction false} ReturnedIsLost(s: Bytes, now: bool, old_: Bytes, new_: Bytes)
    requires old_ != [] && EndsInCr(old_) && !EndsInCr(new_) && old_[0] != LF
    requires NoLoneCr(s) && (now ==> s != [] && s[0] == LF)
    requires Count(s, old_) > 0
    ensures !Returned(now, Replace(s, old_, new_))
    decreases |s|
  {
    if old_ <= s {
      var t := s[|old_|..];
      LoneCrSuffix(s, |old_|);
      assert t[0] == s[|old_|];
      ReturnedAppend(now, new_, Replace(t, old_, new_));
    } else {
      ReturnedIsLost(s[1..], s[0] == CR, old_, new_);
    }
  }

  /** An edit given with bare line feeds, applied to a CR LF file in that file's convention, leaves a file whose
      every line feed still follows a carriage return, unless it matched a string ending in a carriage return and
      the new string does not end in one. */
  lemma DosFileStaysDosIff(file: Bytes, old_: Bytes, new_: Bytes)
    requires DosFile(file) && LF in old_ && Count(old_, [CR, LF]) == 0
    ensures Variant(old_, new_).Some? && Variant(old_, new_).value.0 != []
    ensures var (altOld, altNew) := Variant(old_, new_).value;
            Returned(false, Replace(file, altOld, altNew)) <==>
              (Count(file, altOld) > 0 && EndsInCr(old_) ==> EndsInCr(new_))
  {
    VariantKeepsOldNonEmpty(old_, new_);
    var (altOld, altNew) := Variant(old_, new_).value;
    TranslationKeepsTheLastByte(old_);
    TranslationKeepsTheLastByte(new_);
    TranslationKeepsTheLastByte(ToUnix(new_));
    DosIsReturned(old_);
    DosIsReturned(ToUnix(new_));
    if Count(file, altOld) == 0 {
      NoMatchNoChange(file, altOld, altNew);
    } else if EndsInCr(old_) && !EndsInCr(new_) {
      ReturnedIsLost(file, false, altOld, altNew);
    } else {
      ReturnedIsKept(file, false, false, altOld, altNew);
    }
  }

  // ---- a file without carriage returns ----

  lemma {:induction false} UnixHasCrIff(s: Bytes)
    ensures CR in ToUnix(s) <==> !NoLoneCr(s)
  {
    if s != [] {
      if [CR, LF] <= s {
        UnixHasCrIff(s[2..]);
        assert s[1..][1..] == s[2..];
        assert ToUnix(s) == [LF] + ToUnix(s[2..]);
      } else {
        UnixHasCrIff(s[1..]);
        assert ToUnix(s) == [s[0]] + ToUnix(s[1..]);
        assert s[0] == CR ==> !(|s| > 1 && s[1] == LF);
      }
    }
  }

  lemma {:induction false} MembersOfReplace(s: Bytes, old_: Bytes, new_: Bytes, b: byte)
    requires old_ != [] && b !in s
    ensures b in Replace(s, old_, new_) <==> Count(s, old_) > 0 && b in new_
    decreases |s|
  {
    if old_ <= s {
      MembersOfReplace(s[|old_|..], old_, new_, b);
    } else if s != [] {
      MembersOfReplace(s[1..], old_, new_, b);
    }
  }

  /** The other direction: a file with no carriage return gains one only from one that stands alone in the new string. */
  lemma UnixFileStaysUnixIff(file: Bytes, old_: Bytes, new_: Bytes)
    requires CR !in file && Count(old_, [CR, LF]) > 0
    ensures Variant(old_, new_).Some? && Variant(old_, new_).value.0 != []
    ensures var (altOld, altNew) := Variant(old_, new_).value;
            CR in Replace(file, altOld, altNew) <==> Count(file, altOld) > 0 && !NoLoneCr(new_)
  {
    VariantKeepsOldNonEmpty(old_, new_);
    var (altOld, altNew) := Variant(old_, new_).value;
    MembersOfReplace(file, altOld, altNew, CR);
    UnixHasCrIff(new_);
  }

  // ---- counting lines ----

  function Newlines(s: Bytes): nat {
    Count(s, [LF])
  }

  function LineCount(s: Bytes): nat {
    Newlines(s) + (if s == [] || s[|s| - 1] == LF then 0 else 1)
  }

  lemma {:induction false} NewlinesAppend(a: Bytes, b: Bytes)
    ensures Newlines(a + b) == Newlines(a) + Newlines(b)
  {
    if a == [] {
      assert a + b == b;
    } else {
      assert (a + b)[1..] == a[1..] + b;
      NewlinesAppend(a[1..], b);
    }
  }

  lemma {:induction false} NewlinesCounted(s: Bytes)
    ensures Newlines(s) == multiset(s)[10]
  {
    if s != [] {
      NewlinesCounted(s[1..]);
      assert s == [s[0]] + s[1..];
    }
  }

  /** A file has a line for each line feed, and one more if it does not end with one. */
  lemma LinesMeaning(s: Bytes)
    ensures LineCount(s) == multiset(s)[10] + (if s != [] && s[|s| - 1] != 10 then 1 else 0)
  {
    NewlinesCounted(s);
  }

  /** `_count_lines`, chunk by chunk. */
  method CountLines(chunks: seq<Bytes>) returns (count: nat)
    requires [] !in chunks
    ensures count == LineCount(Flatten(chunks))
  {
    var newlines, last := 0, LF;
    var n := 0;
    ghost var seen: Bytes := [];
    assert chunks[0..] == chunks && [] + Flatten(chunks) == Flatten(chunks);
    while n < |chunks|
      invariant n <= |chunks|
      invariant seen + Flatten(chunks[n..]) == Flatten(chunks)
      invariant newlines == Newlines(seen) && last == (if seen == [] then LF else seen[|seen| - 1])
    {
      var chunk := chunks[n];
      assert chunks[n..][0] == chunk && chunks[n..][1..] == chunks[n + 1..];
      Regroup(seen, chunk, Flatten(chunks[n + 1..]));
      NewlinesAppend(seen, chunk);
      newlines := newlines + Newlines(chunk);
      last := chunk[|chunk| - 1];
      seen := seen + chunk;
      n := n + 1;
    }
    assert Flatten(chunks[n..]) == [];
    assert seen == Flatten(chunks);
    return newlines + (if last == LF then 0 else 1);
  }

  lemma {:induction false} NewlinesOfReplace(s: Bytes, old_: Bytes, new_: Bytes)
    requires old_ != []
    ensures Newlines(Replace(s, old_, new_)) == Newlines(s) + Count(s, old_) * (Newlines(new_) - Newlines(old_))
    decreases |s|
  {
    if old_ <= s {
      var t := s[|old_|..];
      NewlinesOfReplace(t, old_, new_);
      assert s == old_ + t;
      NewlinesAppend(old_, t);
      NewlinesAppend(new_, Replace(t, old_, new_));
      OneMore(Count(t, old_), Newlines(new_) - Newlines(old_));
    } else if s != [] {
      NewlinesOfReplace(s[1..], old_, new_);
      assert s == [s[0]] + s[1..];
      NewlinesAppend([s[0]], s[1..]);
      NewlinesAppend([s[0]], Replace(s[1..], old_, new_));
    }
  }

  datatype Sizes = Sizes(bytes: int, lines: int)

  /** What `guard_shrink` expects of an edit before it is written, from the number of matches alone. */
  function Predicted(file: Bytes, old_: Bytes, new_: Bytes, matches: nat): Sizes {
    var lines := LineCount(file) + matches * (Newlines(new_) - Newlines(old_));
    Sizes(|file| + matches * (|new_| - |old_|), if lines < 1 then 1 else lines)
  }

  /** The byte count is exact; the line count is exact up to whether the last line is left unfinished. */
  lemma PredictionIsRight(file: Bytes, old_: Bytes, new_: Bytes)
    requires old_ != [] && Count(file, old_) > 0
    ensures var result := Replace(file, old_, new_);
            var p := Predicted(file, old_, new_, Count(file, old_));
            && p.bytes == |result|
            && -1 <= p.lines - LineCount(result) <= 1
            && (p.lines != LineCount(result) ==>
                  result == [] || (file[|file| - 1] == LF) != (result[|result| - 1] == LF))
  {
    var result := Replace(file, old_, new_);
    ReplaceSize(file, old_, new_);
    NewlinesOfReplace(file, old_, new_);
    var gained := Count(file, old_) * (Newlines(new_) - Newlines(old_));
    assert Newlines(result) == Newlines(file) + gained;
    CompareLines(file, result, LineCount(file) + gained);
  }

  lemma CompareLines(file: Bytes, result: Bytes, lines: int)
    requires file != [] && lines == LineCount(file) + Newlines(result) - Newlines(file)
    ensures var p := if lines < 1 then 1 else lines;
            && -1 <= p - LineCount(result) <= 1
            && (p != LineCount(result) ==>
                  result == [] || (file[|file| - 1] == LF) != (result[|result| - 1] == LF))
  {
    if result != [] && result[|result| - 1] == LF {
      NewlinesAppend(result[..|result| - 1], [LF]);
      assert result == result[..|result| - 1] + [LF];
    }
  }
}
