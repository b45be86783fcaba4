/** `edit`: exact replacement streamed over chunks of a file, and what it means for the text. */
module StreamEdit {
  import opened Common
  import opened Utf8
  import opened Replacing
  import opened Paging
  import opened LineEndings

  datatype EditError = Malformed | NotText | TooLarge | Mismatch(actual: nat)

  datatype Edit = Edit(old_: Bytes, new_: Bytes, expected: int)

  datatype Applied = Applied(old_: Bytes, new_: Bytes, matches: nat, content: Bytes, warns: bool)

  const MAX_OCCURRENCES := 1000

  predicate WellFormed(e: Edit) {
    e.old_ != [] && 0 !in e.old_ && 0 !in e.new_ && 1 <= e.expected <= MAX_OCCURRENCES
  }

  datatype Rewritten = Rewritten(content: Bytes, matches: nat)

  datatype Progress = Progress(output: Bytes, pending: Bytes, count: nat)

  /** What is written, held back and still to come amounts to the whole replacement. */
  ghost predicate OnTrack(at: Progress, rest: Bytes, file: Bytes, old_: Bytes, new_: Bytes, limit: nat)
    requires old_ != []
  {
    && at.output + Replace(at.pending + rest, old_, new_) == Replace(file, old_, new_)
    && at.count + Count(at.pending + rest, old_) == Count(file, old_)
    && |at.output| <= limit
  }

  lemma TakeMatch(at: Progress, rest: Bytes, file: Bytes, old_: Bytes, new_: Bytes, limit: nat, i: nat, next: Progress)
    requires old_ != [] && OnTrack(at, rest, file, old_, new_, limit) && Find(at.pending, old_) == Some(i)
    requires next == Progress(at.output + at.pending[..i] + new_, at.pending[i + |old_|..], at.count + 1)
    ensures |next.output| <= |Replace(file, old_, new_)|
    ensures |next.output| <= limit ==> OnTrack(next, rest, file, old_, new_, limit)
  {
    var front, after := at.pending[..i], next.pending + rest;
    FirstMatchIsFinal(at.pending, rest, old_, new_, i, after);
    var later := Replace(after, old_, new_);
    Regroup(at.output, front, new_ + later);
    Regroup(at.output + front, new_, later);
    assert next.output + later == Replace(file, old_, new_);
  }

  lemma GiveUpFront(at: Progress, rest: Bytes, file: Bytes, old_: Bytes, new_: Bytes, limit: nat, k: nat)
    requires old_ != [] && OnTrack(at, rest, file, old_, new_, limit) && Find(at.pending, old_).None?
    requires k + |old_| == |at.pending|
    ensures var out := at.output + at.pending[..k];
            && |out| <= |Replace(file, old_, new_)|
            && (|out| <= limit ==> OnTrack(Progress(out, at.pending[k..], at.count), rest, file, old_, new_, limit))
  {
    FrontIsFinal(at.pending, rest, old_, new_, k);
  }

  /** The part of the loop that works on the bytes held back: emit up to every match in them, then all but a tail
      too short to hold one. */
  method Drain(start: Progress, old_: Bytes, new_: Bytes, limit: nat, ghost rest: Bytes, ghost file: Bytes)
    returns (at: Progress, fits: bool)
    requires old_ != [] && OnTrack(start, rest, file, old_, new_, limit)
    ensures fits ==> OnTrack(at, rest, file, old_, new_, limit)
    ensures !fits ==> |Replace(file, old_, new_)| > limit
    ensures fits ==> |at.pending| <= |old_|
  {
    at := start;
    var found := Find(at.pending, old_);
    while found.Some?
      invariant found == Find(at.pending, old_)
      invariant OnTrack(at, rest, file, old_, new_, limit)
      decreases |at.pending|
    {
      var i := found.value;
      var next := Progress(at.output + at.pending[..i] + new_, at.pending[i + |old_|..], at.count + 1);
      TakeMatch(at, rest, file, old_, new_, limit, i, next);
      if |next.output| > limit {
        return at, false;
      }
      at := next;
      found := Find(at.pending, old_);
    }
    if |at.pending| > |old_| {
      var k := |at.pending| - |old_|;
      GiveUpFront(at, rest, file, old_, new_, limit, k);
      var out := at.output + at.pending[..k];
      if |out| > limit {
        return at, false;
      }
      at := Progress(out, at.pending[k..], at.count);
    }
    return at, true;
  }

  /** `_stream_replace`: for every chunking, exactly the replacement of the whole file, or exactly the reason why not. */
  method StreamReplace(chunks: seq<Bytes>, old_: Bytes, new_: Bytes, limit: nat) returns (r: Result<Rewritten, EditError>)
    requires old_ != []
    ensures var file := Flatten(chunks);
            var whole := Replace(file, old_, new_);
            && (r.Ok? <==> Readable(file) && |whole| <= limit)
            && (r.Ok? ==> r.value.content == whole && r.value.matches == Count(file, old_))
            && (r.Err? ==> r.error == NotText || r.error == TooLarge)
            && (r == Err(TooLarge) ==> |whole| > limit)
            && (r == Err(NotText) ==> !Readable(file))
  {
    ghost var file := Flatten(chunks);
    var validator := new Utf8Validator();
    var at := Progress([], [], 0);
    var n := 0;
    assert chunks[0..] == chunks && [] + file == file;
    while n < |chunks|
      invariant n <= |chunks|
      invariant fresh(validator) && validator.Valid()
      invariant validator.Fed() + Flatten(chunks[n..]) == file
      invariant OnTrack(at, Flatten(chunks[n..]), file, old_, new_, limit)
    {
      ghost var rest := Flatten(chunks[n + 1..]);
      NextChunk(chunks, n, validator.Fed(), at.pending);
      ghost var fed := validator.Fed() + chunks[n];
      var ok := validator.Feed(chunks[n], false);
      if !ok {
        UnreadableStays(fed, rest);
        return Err(NotText);
      }
      var fits;
      at, fits := Drain(Progress(at.output, at.pending + chunks[n], at.count), old_, new_, limit, rest, file);
      if !fits {
        return Err(TooLarge);
      }
      n := n + 1;
    }
    assert Flatten(chunks[n..]) == [];
    assert validator.Fed() + [] == validator.Fed() && file + [] == file;
    var ok := validator.Feed([], true);
    if !ok {
      return Err(NotText);
    }
    NothingToCome(at, file, old_, new_, limit);
    var output := at.output + Replace(at.pending, old_, new_);
    if |output| > limit {
      return Err(TooLarge);
    }
    return Ok(Rewritten(output, at.count + Count(at.pending, old_)));
  }

  lemma NothingToCome(at: Progress, file: Bytes, old_: Bytes, new_: Bytes, limit: nat)
    requires old_ != [] && OnTrack(at, [], file, old_, new_, limit)
    ensures at.output + Replace(at.pending, old_, new_) == Replace(file, old_, new_)
    ensures at.count + Count(at.pending, old_) == Count(file, old_)
  {
    assert at.pending + [] == at.pending;
  }

  lemma NextChunk(chunks: seq<Bytes>, n: nat, fed: Bytes, pending: Bytes)
    requires n < |chunks|
    ensures fed + Flatten(chunks[n..]) == (fed + chunks[n]) + Flatten(chunks[n + 1..])
    ensures pending + Flatten(chunks[n..]) == (pending + chunks[n]) + Flatten(chunks[n + 1..])
  {
    assert chunks[n..][0] == chunks[n] && chunks[n..][1..] == chunks[n + 1..];
  }

  lemma UnreadableStays(fed: Bytes, rest: Bytes)
    requires 0 in fed || ScanOf(fed).Broken?
    ensures !Readable(fed + rest)
  {
    if 0 !in fed {
      BrokenStays(fed, rest);
    }
  }

  /** The pair of strings an edit settles on: the given ones, or their variant when only that matches. */
  function Settled(file: Bytes, e: Edit): (p: (Bytes, Bytes))
    requires e.old_ != []
    ensures p.0 != []
  {
    var variant := Variant(e.old_, e.new_);
    if Count(file, e.old_) == 0 && variant.Some? then
      VariantKeepsOldNonEmpty(e.old_, e.new_);
      if Count(file, variant.value.0) > 0 then variant.value else (e.old_, e.new_)
    else (e.old_, e.new_)
  }

  /** Which pair it is: the given one if its old string occurs in the file, or if it has no line end. Otherwise CR LF
      becomes LF in both strings, or, where the old string has no CR LF, LF becomes CR LF; that pair is taken if its old
      string occurs. */
  lemma SettledMeaning(file: Bytes, e: Edit)
    requires e.old_ != []
    ensures Count(file, e.old_) > 0 || 10 !in e.old_ ==> Settled(file, e) == (e.old_, e.new_)
    ensures Count(file, e.old_) == 0 && 10 in e.old_ ==>
              var altOld := if Count(e.old_, [13, 10]) > 0 then Replace(e.old_, [13, 10], [10]) else Replace(e.old_, [10], [13, 10]);
              var unixNew := Replace(e.new_, [13, 10], [10]);
              var altNew := if Count(e.old_, [13, 10]) > 0 then unixNew else Replace(unixNew, [10], [13, 10]);
              && altOld != []
              && Settled(file, e) == if Count(file, altOld) > 0 then (altOld, altNew) else (e.old_, e.new_)
  {
    PairHasLineFeed(e.old_);
    if Variant(e.old_, e.new_).Some? {
      VariantKeepsOldNonEmpty(e.old_, e.new_);
    }
  }

  lemma {:induction false} PairHasLineFeed(s: Bytes)
    ensures Count(s, [13, 10]) > 0 ==> 10 in s
  {
    if [13, 10] <= s {
      assert s[1] == 10;
    } else if s != [] {
      PairHasLineFeed(s[1..]);
    }
  }

  /** The file the edit leaves, if the number of matches is the expected one. */
  function Edited(file: Bytes, e: Edit): Bytes
    requires e.old_ != []
  {
    var (old_, new_) := Settled(file, e);
    Replace(file, old_, new_)
  }

  /** The edit is accepted: the file is text, the matches are as many as expected, and every size is within bounds. */
  predicate EditLands(file: Bytes, e: Edit, maxTarget: nat, limit: nat) {
    && WellFormed(e) && |file| <= maxTarget && Readable(file)
    && Count(file, Settled(file, e).0) == e.expected
    && |Edited(file, e)| <= limit && (Count(file, e.old_) == 0 ==> |file| <= limit)
  }

  /** The test of `guard_shrink`. */
  predicate ShrinkWarning(file: Bytes, predicted: Sizes) {
    && |file| >= 200 && LineCount(file) >= 20
    && predicted.bytes * 2 < |file| && predicted.lines * 2 < LineCount(file)
  }

  /** When an edit is reported as a large shrink: a file of at least 200 bytes and 20 lines loses more than half of both,
      the lines counted from the line feeds of the two strings. */
  lemma WarnsIff(file: Bytes, old_: Bytes, new_: Bytes, matches: nat)
    requires old_ != [] && matches == Count(file, old_)
    ensures ShrinkWarning(file, Predicted(file, old_, new_, matches)) <==>
              && |file| >= 200 && LineCount(file) >= 20 && 2 * |Replace(file, old_, new_)| < |file|
              && 2 < LineCount(file)
              && 2 * (LineCount(file) + matches * (multiset(new_)[10] as int - multiset(old_)[10] as int)) < LineCount(file)
  {
    ReplaceSize(file, old_, new_);
    NewlinesCounted(old_);
    NewlinesCounted(new_);
  }

  /** `prepare_edit` and `apply_edit`: the file becomes exactly the replacement, or nothing is written. */
  method ApplyEdit(chunks: seq<Bytes>, e: Edit, maxTarget: nat, limit: nat) returns (r: Result<Applied, EditError>)
    ensures var file := Flatten(chunks);
            r.Ok? <==> EditLands(file, e, maxTarget, limit)
    ensures r == Err(Malformed) <==> e.old_ == [] || 0 in e.old_ || 0 in e.new_ || e.expected < 1 || e.expected > 1000
    ensures var file := Flatten(chunks);
            r.Ok? ==> && r.value.content == Edited(file, e) && r.value.matches == e.expected
                      && (r.value.old_, r.value.new_) == Settled(file, e)
                      && r.value.warns == ShrinkWarning(file, Predicted(file, r.value.old_, r.value.new_, r.value.matches))
    ensures var file := Flatten(chunks);
            r.Err? && r.error.Mismatch? ==> WellFormed(e) && r.error.actual == Count(file, Settled(file, e).0) != e.expected
  {
    ghost var file := Flatten(chunks);
    if !WellFormed(e) {
      return Err(Malformed);
    }
    if |Flatten(chunks)| > maxTarget {
      return Err(TooLarge);
    }
    var first := StreamReplace(chunks, e.old_, e.new_, limit);
    if first.Err? {
      if Count(file, e.old_) == 0 {
        NoMatchNoChange(file, e.old_, e.new_);
      }
      return Err(first.error);
    }
    var Rewritten(content, matches) := first.value;
    var old_, new_ := e.old_, e.new_;
    var variant := if matches == 0 then Variant(e.old_, e.new_) else None;
    if matches == 0 {
      NoMatchNoChange(file, e.old_, e.new_);
    }
    if variant.Some? {
      VariantKeepsOldNonEmpty(e.old_, e.new_);
      var second := StreamReplace(chunks, variant.value.0, variant.value.1, limit);
      if second.Err? {
        if Count(file, variant.value.0) == 0 {
          NoMatchNoChange(file, variant.value.0, variant.value.1);
        }
        return Err(second.error);
      }
      if second.value.matches > 0 {
        content, matches := second.value.content, second.value.matches;
        old_, new_ := variant.value.0, variant.value.1;
      }
    }
    if matches != e.expected {
      return Err(Mismatch(matches));
    }
    var warns := ShrinkWarning(Flatten(chunks), Predicted(Flatten(chunks), old_, new_, matches));
    return Ok(Applied(old_, new_, matches, content, warns));
  }
}
