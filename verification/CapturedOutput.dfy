/** `runner/process.py`: the captured output of a command, whole while it is short, then a bounded head and tail. */
module CapturedOutput {
  import opened Common

  const MAX_RETAINED_OUTPUT_BYTES := 512_000
  const MAX_STREAM_PREVIEW_BYTES := MAX_RETAINED_OUTPUT_BYTES / 2

  /** "\n... [output truncated] ...\n" */
  const TRUNCATED_MARKER: Bytes :=
    [10, 46, 46, 46, 32, 91, 111, 117, 116, 112, 117, 116, 32,
     116, 114, 117, 110, 99, 97, 116, 101, 100, 93, 32, 46, 46, 46, 10]

  function Clamp(low: int, x: int, high: int): int {
    var capped := if x < high then x else high;
    if capped < low then low else capped
  }

  function LimitFor(requested: int): (limit: nat)
    ensures 1 <= limit <= MAX_RETAINED_OUTPUT_BYTES
  {
    Clamp(1, requested, MAX_RETAINED_OUTPUT_BYTES)
  }

  function PreviewFor(limit: nat): (preview: nat) {
    Clamp(1, limit / 2, MAX_STREAM_PREVIEW_BYTES)
  }

  /** What is kept of a stream: all of it up to the limit, otherwise its first and its last `preview` bytes. */
  function Shown(stream: Bytes, limit: nat): Bytes
    requires 1 <= limit
  {
    var preview := PreviewFor(limit);
    if |stream| <= limit then stream
    else stream[..preview] + TRUNCATED_MARKER + stream[|stream| - preview..]
  }

  /** The limit is the requested one, but at least 1 and at most 512000; the preview is half of it, but at least 1. */
  lemma LimitMeaning(requested: int)
    ensures LimitFor(requested) == if requested < 1 then 1 else if requested > 512_000 then 512_000 else requested
    ensures PreviewFor(LimitFor(requested)) == if LimitFor(requested) == 1 then 1 else LimitFor(requested) / 2
  {
  }

  /** What is shown, byte by byte: the whole stream, or its first bytes, the marker, and its last bytes. */
  lemma ShownMeaning(stream: Bytes, limit: nat, preview: nat)
    requires 1 <= limit <= 512_000 && preview == if limit == 1 then 1 else limit / 2
    ensures |stream| <= limit ==> Shown(stream, limit) == stream
    ensures |stream| > limit ==>
              var shown, marker := Shown(stream, limit), "\n... [output truncated] ...\n";
              && |shown| == 2 * preview + |marker|
              && shown[..preview] == stream[..preview]
              && (forall k :: 0 <= k < |marker| ==> shown[preview + k] as int == marker[k] as int)
              && shown[|shown| - preview..] == stream[|stream| - preview..]
  {
    if |stream| > limit {
      MarkerSpells();
      ThreeParts(stream[..preview], TRUNCATED_MARKER, stream[|stream| - preview..], Shown(stream, limit));
    }
  }

  lemma ThreeParts(a: Bytes, b: Bytes, c: Bytes, whole: Bytes)
    requires whole == a + b + c
    ensures whole[..|a|] == a && whole[|whole| - |c|..] == c
    ensures forall k :: 0 <= k < |b| ==> whole[|a| + k] == b[k]
  {
  }

  lemma MarkerSpells()
    ensures var marker := "\n... [output truncated] ...\n";
            |TRUNCATED_MARKER| == |marker| && forall k :: 0 <= k < |marker| ==> TRUNCATED_MARKER[k] as int == marker[k] as int
  {
  }

  /** Nothing is shown twice: the stream is the head, what was dropped, and the tail, and its length says how much
      was dropped. */
  lemma HeadAndTailDoNotOverlap(stream: Bytes, limit: nat)
    requires 1 <= limit < |stream|
    ensures var preview := PreviewFor(limit);
            && 2 * preview <= |stream|
            && stream == stream[..preview] + stream[preview..|stream| - preview] + stream[|stream| - preview..]
            && |stream[preview..|stream| - preview]| == |stream| - (|Shown(stream, limit)| - |TRUNCATED_MARKER|)
  {
  }

  lemma TailGrows(tail: seq<Bytes>, chunk: Bytes, stream: Bytes, n: nat)
    requires n <= |stream| && Flatten(tail) == stream[|stream| - n..]
    ensures Flatten(tail + [chunk]) == (stream + chunk)[|stream| - n..]
  {
    FlattenAppend(tail, [chunk]);
    assert [chunk][1..] == [] && Flatten([chunk]) == chunk;
  }

  lemma HeadStays(stream: Bytes, chunk: Bytes, n: nat)
    requires n <= |stream|
    ensures (stream + chunk)[..n] == stream[..n]
  {
  }

  class OutputBuffer {
    const limit: nat
    const preview: nat
    var full: Bytes
    var head: Bytes
    var tail: seq<Bytes>
    var tailBytes: nat
    var total: nat
    var truncated: bool
    /** Everything appended so far. */
    ghost var stream: Bytes

    constructor (requested: int)
      ensures Valid() && stream == [] && limit == LimitFor(requested)
    {
      limit := LimitFor(requested);
      preview := PreviewFor(LimitFor(requested));
      full, head, tail, tailBytes, total, truncated, stream := [], [], [], 0, 0, false, [];
    }

    ghost predicate Valid()
      reads this
    {
      && 1 <= limit <= MAX_RETAINED_OUTPUT_BYTES && preview == PreviewFor(limit) && total == |stream|
      && (!truncated ==> full == stream && |stream| <= limit)
      && (truncated ==> && full == [] && |stream| > limit
                        && head == stream[..preview] && TailHolds(preview) && tailBytes == preview)
    }

    /** The tail pieces spell the last `n` bytes of the stream. */
    ghost predicate TailHolds(n: nat)
      reads this
    {
      n <= |stream| && Flatten(tail) == stream[|stream| - n..]
    }

    method Append(chunk: Bytes)
      requires Valid()
      modifies this
      ensures Valid() && stream == old(stream) + chunk
    {
      total := total + |chunk|;
      stream := stream + chunk;
      if !truncated {
        full := full + chunk;
        if |full| > limit {
          Truncate();
        }
        return;
      }
      HeadStays(old(stream), chunk, preview);
      TailGrows(tail, chunk, old(stream), preview);
      tail := tail + [chunk];
      tailBytes := tailBytes + |chunk|;
      TrimTail();
    }

    /** The stream has outgrown the limit: keep its two ends. */
    method Truncate()
      requires 1 <= limit <= MAX_RETAINED_OUTPUT_BYTES && preview == PreviewFor(limit) && total == |stream|
      requires !truncated && full == stream && |stream| > limit
      modifies this
      ensures Valid() && stream == old(stream)
    {
      truncated := true;
      head := full[..preview];
      tail := [full[|full| - preview..]];
      tailBytes := |tail[0]|;
      assert tail[1..] == [] && Flatten(tail) == tail[0];
      full := [];
    }

    /** Drop bytes from the front of the tail until no more than `preview` are left. */
    method TrimTail()
      requires TailHolds(tailBytes) && preview <= tailBytes
      modifies this`tail, this`tailBytes
      ensures TailHolds(preview) && tailBytes == preview
    {
      while tail != [] && tailBytes > preview
        invariant TailHolds(tailBytes) && preview <= tailBytes
        decreases tailBytes, |tail|
      {
        var excess := tailBytes - preview;
        var first := tail[0];
        assert Flatten(tail) == first + Flatten(tail[1..]);
        if |first| <= excess {
          tail := tail[1..];
          tailBytes := tailBytes - |first|;
        } else {
          tail := tail[0 := first[excess..]];
          tailBytes := tailBytes - excess;
        }
      }
    }

    /** `bytes()`: it depends on what was appended, not on how it was cut into chunks. */
    method Output() returns (shown: Bytes)
      requires Valid()
      ensures shown == Shown(stream, limit)
    {
      if !truncated {
        return full;
      }
      return head + TRUNCATED_MARKER + Flatten(tail);
    }
  }
}
