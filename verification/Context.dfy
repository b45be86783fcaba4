/** `server/agent/context.py`: fitting a conversation into a token budget without breaking the tool protocol. */
module Context {
  import opened Common

  datatype Role = System | User | Assistant | Tool

  datatype Call = Call(id: string, name: string, arguments: string)

  /** `calls` is used by assistant messages, `answers` by tool messages. */
  datatype Message = Message(role: Role, content: string, calls: seq<Call>, answers: string)

  /** The parts whose text does not matter here: the token estimate, and the renderings of long JSON values. */
  datatype Rendering = Rendering(
    estimate: seq<Message> -> nat,
    toolSummary: string -> string,
    argumentSummary: string -> string,
    assistantSummary: Message -> string)

  // ---- the tool protocol ----

  function CallIds(m: Message): set<string> {
    set c | c in m.calls :: c.id
  }

  /** The calls a message at `n` may answer: those of the assistant message its block follows. */
  function Open(ms: seq<Message>, n: nat): set<string>
    requires n <= |ms|
  {
    if n == 0 then {}
    else if ms[n - 1].role == Assistant then CallIds(ms[n - 1])
    else if ms[n - 1].role == Tool then Open(ms, n - 1)
    else {}
  }

  /** Every tool message stands in the block after the assistant message that issued its call. */
  predicate Paired(ms: seq<Message>) {
    forall i :: 0 <= i < |ms| && ms[i].role == Tool ==> ms[i].answers in Open(ms, i)
  }

  // ---- what compaction may do to one message ----

  predicate SameShape(a: Message, b: Message) {
    a.role == b.role && a.answers == b.answers && |a.calls| == |b.calls|
    && forall i :: 0 <= i < |a.calls| ==> a.calls[i].id == b.calls[i].id && a.calls[i].name == b.calls[i].name
  }

  predicate SameShapes(a: seq<Message>, b: seq<Message>) {
    |a| == |b| && forall i :: 0 <= i < |a| ==> SameShape(a[i], b[i])
  }

  lemma SameShapeSameCalls(a: Message, b: Message)
    requires SameShape(a, b)
    ensures CallIds(a) == CallIds(b)
  {
    forall x ensures x in CallIds(a) <==> x in CallIds(b) {
      if x in CallIds(a) {
        var i :| 0 <= i < |a.calls| && a.calls[i].id == x;
        assert b.calls[i] in b.calls;
      }
      if x in CallIds(b) {
        var i :| 0 <= i < |b.calls| && b.calls[i].id == x;
        assert a.calls[i] in a.calls;
      }
    }
  }

  lemma {:induction false} SameShapesSameOpen(a: seq<Message>, b: seq<Message>, n: nat)
    requires SameShapes(a, b) && n <= |a|
    ensures Open(a, n) == Open(b, n)
  {
    if n > 0 {
      SameShapeSameCalls(a[n - 1], b[n - 1]);
      SameShapesSameOpen(a, b, n - 1);
    }
  }

  lemma SameShapesStayPaired(a: seq<Message>, b: seq<Message>)
    requires SameShapes(a, b) && Paired(a)
    ensures Paired(b)
  {
    forall i | 0 <= i < |b| && b[i].role == Tool ensures b[i].answers in Open(b, i) {
      SameShapesSameOpen(a, b, i);
    }
  }

  const COMPACTED := "\n… compacted …\n"
  const EXCERPT_PREFIX := "[Context excerpt] "

  /** What the protocol asks: every tool result answers a call of an assistant message before it, with nothing but tool
      results in between. */
  lemma PairedIff(ms: seq<Message>)
    ensures Paired(ms) <==>
            forall i :: 0 <= i < |ms| && ms[i].role == Tool ==>
              exists j :: 0 <= j < i && ms[j].role == Assistant && ms[i].answers in (set c | c in ms[j].calls :: c.id)
                          && forall k :: j < k < i ==> ms[k].role == Tool
  {
    forall i | 0 <= i < |ms|
      ensures ms[i].answers in Open(ms, i) <==>
              exists j :: 0 <= j < i && ms[j].role == Assistant && ms[i].answers in (set c | c in ms[j].calls :: c.id)
                          && forall k :: j < k < i ==> ms[k].role == Tool
    {
      OpenIff(ms, i, ms[i].answers);
    }
  }

  lemma {:induction false} OpenIff(ms: seq<Message>, n: nat, id: string)
    requires n <= |ms|
    ensures id in Open(ms, n) <==>
            exists j :: 0 <= j < n && ms[j].role == Assistant && id in (set c | c in ms[j].calls :: c.id)
                        && forall k :: j < k < n ==> ms[k].role == Tool
  {
    if n > 0 && ms[n - 1].role == Tool {
      OpenIff(ms, n - 1, id);
    }
  }

  /** `_bounded_excerpt` */
  function BoundedExcerpt(value: string, limit: nat): (r: string)
    ensures |value| <= limit ==> r == value
    ensures |r| <= limit + |COMPACTED|
  {
    if |value| <= limit then value
    else
      var half := limit / 2;
      value[..half] + COMPACTED + value[|value| - half..]
  }

  function Excerpt(content: string): (r: string)
    ensures |r| <= 800
  {
    assert |EXCERPT_PREFIX| + 600 + |COMPACTED| <= 800;
    EXCERPT_PREFIX + BoundedExcerpt(content, 600)
  }

  /** What an excerpt is: short content whole, of long content its first and its last 300 characters. */
  lemma ExcerptMeaning(content: string)
    ensures |content| <= 600 ==> Excerpt(content) == "[Context excerpt] " + content
    ensures |content| > 600 ==>
              && |Excerpt(content)| == 18 + 300 + 15 + 300
              && Excerpt(content)[..18] == "[Context excerpt] " && Excerpt(content)[18..318] == content[..300]
              && Excerpt(content)[318..333] == "\n… compacted …\n" && Excerpt(content)[333..] == content[|content| - 300..]
  {
    if |content| > 600 {
      var front, back := content[..300], content[|content| - 300..];
      assert |EXCERPT_PREFIX| == 18 && |front| == 300 && |COMPACTED| == 15;
      FourParts(EXCERPT_PREFIX, front, COMPACTED, back);
      LongExcerpt(content, front, back);
    }
  }

  lemma LongExcerpt(content: string, front: string, back: string)
    requires |content| > 600 && front == content[..300] && back == content[|content| - 300..]
    ensures Excerpt(content) == EXCERPT_PREFIX + (front + COMPACTED + back)
  {
    ExcerptParts(content, 600, front, back);
  }

  lemma ExcerptParts(value: string, limit: nat, front: string, back: string)
    requires |value| > limit && front == value[..limit / 2] && back == value[|value| - limit / 2..]
    ensures BoundedExcerpt(value, limit) == front + COMPACTED + back
  {
  }

  lemma FourParts(a: string, b: string, c: string, d: string)
    ensures var whole := a + (b + c + d);
            && whole[..|a|] == a && whole[|a|..|a| + |b|] == b && whole[|a| + |b|..|a| + |b| + |c|] == c
            && whole[|a| + |b| + |c|..] == d
  {
  }

  /** A tool result stays, or becomes its summary when it is long; an overlong summary may be summarised again. */
  predicate BoundedFrom(was: string, now: string, toolSummary: string -> string) {
    || now == was
    || (|was| > 1200 && now == toolSummary(was))
    || (|was| > 1200 && |toolSummary(was)| > 8000 && now == toolSummary(toolSummary(was)))
  }

  predicate BoundedMessage(was: Message, now: Message, r: Rendering) {
    && SameShape(was, now) && now.calls == BoundCalls(was, r).calls
    && (if was.role == Tool then BoundedFrom(was.content, now.content, r.toolSummary) else now.content == was.content)
  }

  /** A message of the output says what its original said, tool results perhaps summarised, and what is still long
      perhaps cut to an excerpt. */
  ghost predicate DerivedFrom(was: Message, now: Message, r: Rendering) {
    exists mid: Message {:trigger BoundedMessage(was, mid, r)} ::
      BoundedMessage(was, mid, r) && (now == mid || (|mid.content| > 800 && now == mid.(content := Excerpt(mid.content))))
  }

  /** Field by field: role, answered call, and the ids and names of calls stay; the content is the original, or that of a long
      tool result summarised once, or twice where the summary is overlong; or, if that is long, an excerpt of it. */
  lemma DerivedMeaning(was: Message, now: Message, r: Rendering) returns (c: string)
    requires DerivedFrom(was, now, r)
    ensures now.role == was.role && now.answers == was.answers && |now.calls| == |was.calls|
    ensures forall i :: 0 <= i < |was.calls| ==> now.calls[i].id == was.calls[i].id && now.calls[i].name == was.calls[i].name
    ensures || c == was.content
            || (was.role == Tool && |was.content| > 1200 && c == r.toolSummary(was.content))
            || (&& was.role == Tool && |was.content| > 1200 && |r.toolSummary(was.content)| > 8000
                && c == r.toolSummary(r.toolSummary(was.content)))
    ensures now.content == c || (|c| > 800 && now.content == Excerpt(c))
  {
    var mid: Message {:trigger BoundedMessage(was, mid, r)} :|
      BoundedMessage(was, mid, r) && (now == mid || (|mid.content| > 800 && now == mid.(content := Excerpt(mid.content))));
    c := mid.content;
  }

  // ---- the three passes that shorten in place ----

  function BoundCall(c: Call, r: Rendering): Call {
    if |c.arguments| > 4000 then c.(arguments := r.argumentSummary(c.arguments)) else c
  }

  function BoundCalls(m: Message, r: Rendering): (n: Message)
    ensures SameShape(m, n) && n.content == m.content
  {
    m.(calls := seq(|m.calls|, i requires 0 <= i < |m.calls| => BoundCall(m.calls[i], r)))
  }

  /** Arguments of more than 4000 characters are rendered anew, everything else about a call stays. */
  lemma BoundCallsMeaning(m: Message, r: Rendering, i: nat)
    requires i < |m.calls|
    ensures var n := BoundCalls(m, r);
            && |n.calls| == |m.calls| && n.role == m.role && n.content == m.content && n.answers == m.answers
            && n.calls[i].id == m.calls[i].id && n.calls[i].name == m.calls[i].name
            && n.calls[i].arguments
               == if |m.calls[i].arguments| > 4000 then r.argumentSummary(m.calls[i].arguments) else m.calls[i].arguments
  {
  }

  method BoundArguments(ms: seq<Message>, r: Rendering) returns (out: seq<Message>)
    ensures |out| == |ms| && forall i :: 0 <= i < |ms| ==> out[i] == BoundCalls(ms[i], r)
  {
    out := ms;
    for index := 0 to |ms|
      invariant |out| == |ms|
      invariant forall i :: 0 <= i < index ==> out[i] == BoundCalls(ms[i], r)
      invariant forall i :: index <= i < |ms| ==> out[i] == ms[i]
    {
      out := out[index := BoundCalls(ms[index], r)];
    }
  }

  predicate LongResult(m: Message, limit: nat) {
    m.role == Tool && |m.content| > limit
  }

  function Summarised(m: Message, r: Rendering): Message {
    m.(content := r.toolSummary(m.content))
  }

  /** The long results at `..cut` are summarised, all other messages are untouched. */
  predicate SummarisedTo(ms: seq<Message>, out: seq<Message>, cut: nat, limit: nat, r: Rendering) {
    && |out| == |ms|
    && forall i :: 0 <= i < |ms| ==> out[i] == if i < cut && LongResult(ms[i], limit) then Summarised(ms[i], r) else ms[i]
  }

  /** Of the results at `..cut` those longer than the limit have their summary as content; nothing else changed. */
  lemma SummarisedMeaning(ms: seq<Message>, out: seq<Message>, cut: nat, limit: nat, r: Rendering, i: nat)
    requires SummarisedTo(ms, out, cut, limit, r) && i < |ms|
    ensures |out| == |ms|
    ensures if i < cut && ms[i].role == Tool && |ms[i].content| > limit
            then out[i].content == r.toolSummary(ms[i].content) && out[i].(content := ms[i].content) == ms[i]
            else out[i] == ms[i]
  {
  }

  /** The conversation with the long results at `..k` summarised. */
  function Stage(ms: seq<Message>, k: nat, limit: nat, r: Rendering): seq<Message> {
    seq(|ms|, i requires 0 <= i < |ms| => if i < k && LongResult(ms[i], limit) then Summarised(ms[i], r) else ms[i])
  }

  lemma SummarisedIsStage(ms: seq<Message>, out: seq<Message>, cut: nat, limit: nat, r: Rendering)
    requires SummarisedTo(ms, out, cut, limit, r)
    ensures out == Stage(ms, cut, limit, r)
  {
  }

  /** Summarising stops in time: after every result but the last the conversation was still too large, and if it stops
      before the end it does so behind a result. */
  ghost predicate SummarisedInTime(ms: seq<Message>, cut: nat, before: nat, limit: nat, maxTokens: nat, r: Rendering) {
    && cut <= before <= |ms|
    && (cut > 0 ==> StillTooLarge(ms, cut - 1, limit, maxTokens, r))
    && (cut < before ==> cut > 0 && LongResult(ms[cut - 1], limit))
  }

  ghost predicate StillTooLarge(ms: seq<Message>, upTo: nat, limit: nat, maxTokens: nat, r: Rendering) {
    upTo <= |ms| && forall k :: 0 < k <= upTo && LongResult(ms[k - 1], limit) ==> r.estimate(Stage(ms, k, limit, r)) > maxTokens
  }

  lemma OneMoreTooLarge(ms: seq<Message>, index: nat, limit: nat, maxTokens: nat, r: Rendering)
    requires StillTooLarge(ms, index, limit, maxTokens, r) && index < |ms|
    requires LongResult(ms[index], limit) ==> r.estimate(Stage(ms, index + 1, limit, r)) > maxTokens
    ensures StillTooLarge(ms, index + 1, limit, maxTokens, r)
  {
  }

  lemma SummariseOne(ms: seq<Message>, out: seq<Message>, index: nat, limit: nat, r: Rendering)
    requires SummarisedTo(ms, out, index, limit, r) && index < |ms|
    ensures var next := if LongResult(ms[index], limit) then out[index := Summarised(ms[index], r)] else out;
            SummarisedTo(ms, next, index + 1, limit, r) && next == Stage(ms, index + 1, limit, r)
  {
  }

  function Start(t: string): (s: string)
    ensures s <= t && |s| == if |t| < 240 then |t| else 240
  {
    if |t| <= 240 then t else t[..240]
  }

  /** What is noted of the long results at `..n`. */
  function EarlyNotes(ms: seq<Message>, n: nat, limit: nat, r: Rendering): seq<string>
    requires n <= |ms|
  {
    if n == 0 then [] else
      EarlyNotes(ms, n - 1, limit, r)
      + (if LongResult(ms[n - 1], limit) then [Start(r.toolSummary(ms[n - 1].content))] else [])
  }

  /** Replace tool results longer than `limit` by their summaries, oldest first, until the budget is met. */
  method BoundResults(ms: seq<Message>, before: nat, limit: nat, maxTokens: nat, r: Rendering, summaries: seq<string>)
    returns (out: seq<Message>, notes: seq<string>, ghost cut: nat)
    requires before <= |ms|
    ensures cut <= before && SummarisedTo(ms, out, cut, limit, r) && notes == summaries + EarlyNotes(ms, cut, limit, r)
    ensures r.estimate(out) <= maxTokens || cut == before
    ensures SummarisedInTime(ms, cut, before, limit, maxTokens, r)
  {
    out, notes := ms, summaries;
    for index := 0 to before
      invariant SummarisedTo(ms, out, index, limit, r) && notes == summaries + EarlyNotes(ms, index, limit, r)
      invariant StillTooLarge(ms, index, limit, maxTokens, r)
    {
      SummariseOne(ms, out, index, limit, r);
      if LongResult(ms[index], limit) {
        var summary := r.toolSummary(ms[index].content);
        out := out[index := Summarised(ms[index], r)];
        notes := notes + [Start(summary)];
        if r.estimate(out) <= maxTokens {
          return out, notes, index + 1;
        }
      }
      OneMoreTooLarge(ms, index, limit, maxTokens, r);
    }
    cut := before;
    assert cut > 0 ==> StillTooLarge(ms, cut - 1, limit, maxTokens, r);
  }

  // ---- removing whole exchanges ----

  /** The messages of `ms[..n]` whose places are not in `gone`. */
  function Select(ms: seq<Message>, n: nat, gone: set<nat>): seq<Message>
    requires n <= |ms|
  {
    if n == 0 then [] else Select(ms, n - 1, gone) + (if n - 1 in gone then [] else [ms[n - 1]])
  }

  /** What may be removed: no system message; nothing that starts within the last `keep`; and of a call and its
      results, all or none. */
  ghost predicate MayRemove(ms: seq<Message>, gone: set<nat>, keep: nat) {
    && (forall i :: i in gone ==> i < |ms| && ms[i].role != System)
    && (forall i :: i in gone && ms[i].role != Tool ==> i + keep < |ms|)
    && (Paired(ms) ==> WholeExchanges(ms, gone))
  }

  ghost predicate WholeExchanges(ms: seq<Message>, gone: set<nat>) {
    forall i: nat :: i + 1 < |ms| && ms[i + 1].role == Tool ==> (i in gone <==> i + 1 in gone)
  }

  lemma {:induction false} SelectedOpen(ms: seq<Message>, n: nat, gone: set<nat>)
    requires n <= |ms| && Paired(ms) && WholeExchanges(ms, gone) && (n > 0 ==> n - 1 !in gone)
    ensures Open(Select(ms, n, gone), |Select(ms, n, gone)|) == Open(ms, n)
  {
    if n > 0 {
      var front := Select(ms, n - 1, gone);
      if ms[n - 1].role == Tool {
        if n - 1 > 0 {
          assert ms[n - 2 + 1].role == Tool;
        }
        SelectedOpen(ms, n - 1, gone);
      }
      OpenOfFront(front, Select(ms, n, gone), |front|);
    }
  }

  lemma {:induction false} OpenOfFront(a: seq<Message>, b: seq<Message>, n: nat)
    requires a <= b && n <= |a|
    ensures Open(a, n) == Open(b, n)
  {
    if n > 0 {
      OpenOfFront(a, b, n - 1);
    }
  }

  /** Removing whole exchanges keeps the protocol. */
  lemma {:induction false} SelectedIsPaired(ms: seq<Message>, n: nat, gone: set<nat>)
    requires n <= |ms| && Paired(ms) && WholeExchanges(ms, gone)
    ensures Paired(Select(ms, n, gone))
  {
    if n > 0 {
      var front, whole := Select(ms, n - 1, gone), Select(ms, n, gone);
      SelectedIsPaired(ms, n - 1, gone);
      forall i | 0 <= i < |whole| && whole[i].role == Tool ensures whole[i].answers in Open(whole, i) {
        OpenOfFront(front, whole, if i < |front| then i else |front|);
        if i == |front| {
          if n - 1 > 0 {
            assert ms[n - 2 + 1].role == Tool;
          }
          SelectedOpen(ms, n - 1, gone);
        }
      }
    }
  }

  lemma {:induction false} SelectRest(ms: seq<Message>, from: nat, n: nat, gone: set<nat>)
    requires from <= n <= |ms| && forall i :: i in gone ==> i < from
    ensures Select(ms, n, gone) == Select(ms, from, gone) + ms[from..n]
  {
    if from < n {
      SelectRest(ms, from, n - 1, gone);
      assert ms[from..n] == ms[from..n - 1] + [ms[n - 1]];
    } else {
      assert ms[from..n] == [];
    }
  }

  lemma {:induction false} SelectIgnoresLater(ms: seq<Message>, n: nat, gone: set<nat>, more: set<nat>)
    requires n <= |ms| && forall i :: i in more ==> i >= n
    ensures Select(ms, n, gone + more) == Select(ms, n, gone)
  {
    if n > 0 {
      SelectIgnoresLater(ms, n - 1, gone, more);
    }
  }

  lemma {:induction false} SelectSkips(ms: seq<Message>, from: nat, to: nat, gone: set<nat>)
    requires from <= to <= |ms| && forall i :: from <= i < to ==> i in gone
    ensures Select(ms, to, gone) == Select(ms, from, gone)
  {
    if from < to {
      SelectSkips(ms, from, to - 1, gone);
    }
  }

  function Places(from: nat, to: nat): (r: set<nat>)
    ensures forall i :: i in r <==> from <= i < to
  {
    if from >= to then {} else Places(from, to - 1) + {to - 1}
  }

  /** How far the removal loop has come: `ms[..from]` has been looked at, the rest is as it was. */
  ghost predicate Removing(ms: seq<Message>, out: seq<Message>, index: nat, from: nat, gone: set<nat>, keep: nat) {
    && from <= |ms|
    && out == Select(ms, from, gone) + ms[from..] && index == |Select(ms, from, gone)|
    && (forall i :: i in gone ==> i < from)
    && MayRemove(ms, gone, keep)
    && (forall i :: 0 <= i < from ==> i in gone || ms[i].role == System || ms[i].role == Tool)
    && (Paired(ms) && from < |ms| ==> ms[from].role != Tool)
  }

  lemma NoResultsAfter(ms: seq<Message>, from: nat)
    requires from + 1 < |ms| && Paired(ms) && ms[from].role != Tool && (ms[from].role == Assistant ==> ms[from].calls == [])
    ensures ms[from + 1].role != Tool
  {
    assert Open(ms, from + 1) == {};
  }

  /** Passing over a message. */
  lemma KeepOne(ms: seq<Message>, out: seq<Message>, index: nat, from: nat, gone: set<nat>, keep: nat)
    requires Removing(ms, out, index, from, gone, keep) && from < |ms|
    requires ms[from].role == System || ms[from].role == Tool
    ensures Removing(ms, out, index + 1, from + 1, gone, keep)
  {
    assert ms[from..] == [ms[from]] + ms[from + 1..];
    if Paired(ms) && from + 1 < |ms| {
      NoResultsAfter(ms, from);
    }
  }

  /** Deleting what stands at `from..to`. */
  lemma RemoveSome(ms: seq<Message>, out: seq<Message>, index: nat, from: nat, to: nat, gone: set<nat>, keep: nat, next: seq<Message>)
    requires Removing(ms, out, index, from, gone, keep) && from < to <= |ms|
    requires next == out[..index] + out[index + (to - from)..]
    requires forall i :: from <= i < to ==> ms[i].role != System && (i > from ==> ms[i].role == Tool)
    requires from + keep < |ms|
    requires Paired(ms) && to < |ms| ==> ms[to].role != Tool
    ensures Removing(ms, next, index, to, gone + Places(from, to), keep)
  {
    var more := gone + Places(from, to);
    SelectIgnoresLater(ms, from, gone, Places(from, to));
    SelectSkips(ms, from, to, more);
    assert out[index + (to - from)..] == ms[to..];
    assert out[..index] == Select(ms, from, gone);
    if Paired(ms) {
      forall i: nat | i + 1 < |ms| && ms[i + 1].role == Tool ensures i in more <==> i + 1 in more {
        assert i in gone <==> i + 1 in gone;
      }
    }
  }

  /** One past the results that answer the call at `index`. */
  method EndOfExchange(out: seq<Message>, index: nat) returns (end: nat)
    requires index < |out|
    ensures index < end <= |out|
    ensures forall k :: index < k < end ==> out[k].role == Tool
    ensures end < |out| ==> out[end].role != Tool || out[end].answers !in CallIds(out[index])
  {
    end := index + 1;
    while end < |out| && out[end].role == Tool && out[end].answers in CallIds(out[index])
      invariant index < end <= |out|
      invariant forall k :: index < k < end ==> out[k].role == Tool
    {
      end := end + 1;
    }
  }

  lemma {:induction false} OpenInBlock(ms: seq<Message>, from: nat, n: nat)
    requires from < n <= |ms| && ms[from].role == Assistant
    requires forall k :: from < k < n ==> ms[k].role == Tool
    ensures Open(ms, n) == CallIds(ms[from])
  {
    if n > from + 1 {
      OpenInBlock(ms, from, n - 1);
    }
  }

  /** The line that stands for a removed message and its results. */
  function Remark(m: Message, r: Rendering): string {
    if m.role == Assistant && m.calls != [] then r.assistantSummary(m)
    else (if m.role == User then "user: " else "assistant: ") + Start(m.content)
  }

  /** What the line says: for an assistant message with calls its summary, otherwise who spoke and up to 240 characters. */
  lemma RemarkMeaning(m: Message, r: Rendering)
    ensures m.role == Assistant && m.calls != [] ==> Remark(m, r) == r.assistantSummary(m)
    ensures m.role == User ==> Remark(m, r)[..6] == "user: " && Remark(m, r)[6..] <= m.content
    ensures m.role == Assistant && m.calls == [] ==> Remark(m, r)[..11] == "assistant: " && Remark(m, r)[11..] <= m.content
    ensures (m.role == User || (m.role == Assistant && m.calls == [])) ==>
              |Remark(m, r)| == (if m.role == User then 6 else 11) + if |m.content| < 240 then |m.content| else 240
  {
    if m.role == User {
      TwoParts("user: ", Start(m.content));
    } else if m.role == Assistant && m.calls == [] {
      TwoParts("assistant: ", Start(m.content));
    }
  }

  lemma TwoParts(a: string, b: string)
    ensures (a + b)[..|a|] == a && (a + b)[|a|..] == b
  {
  }

  /** One line for every exchange removed from `ms[..n]`, oldest first. */
  function Remarks(ms: seq<Message>, n: nat, gone: set<nat>, r: Rendering): seq<string>
    requires n <= |ms|
  {
    if n == 0 then [] else
      Remarks(ms, n - 1, gone, r) + (if n - 1 in gone && ms[n - 1].role != Tool then [Remark(ms[n - 1], r)] else [])
  }

  lemma {:induction false} RemarksOfKept(ms: seq<Message>, from: nat, n: nat, gone: set<nat>, r: Rendering)
    requires from <= n <= |ms| && forall i :: from <= i < n ==> i !in gone || ms[i].role == Tool
    ensures Remarks(ms, n, gone, r) == Remarks(ms, from, gone, r)
  {
    if from < n {
      RemarksOfKept(ms, from, n - 1, gone, r);
    }
  }

  lemma {:induction false} RemarksIgnoreLater(ms: seq<Message>, n: nat, gone: set<nat>, more: set<nat>, r: Rendering)
    requires n <= |ms| && forall i :: i in more ==> i >= n
    ensures Remarks(ms, n, gone + more, r) == Remarks(ms, n, gone, r)
  {
    if n > 0 {
      RemarksIgnoreLater(ms, n - 1, gone, more, r);
    }
  }

  lemma RemarkOne(ms: seq<Message>, from: nat, to: nat, gone: set<nat>, more: set<nat>, r: Rendering)
    requires from < to <= |ms| && ms[from].role != Tool && more == gone + Places(from, to)
    requires forall i :: from < i < to ==> ms[i].role == Tool
    ensures Remarks(ms, to, more, r) == Remarks(ms, from, gone, r) + [Remark(ms[from], r)]
  {
    RemarksIgnoreLater(ms, from, gone, Places(from, to), r);
    RemarksOfKept(ms, from + 1, to, more, r);
  }

  /** Delete the message at `index`, with its results if it calls tools. */
  method RemoveNext(ms: seq<Message>, out: seq<Message>, index: nat, ghost from: nat, ghost gone: set<nat>, ghost keep: nat, r: Rendering)
    returns (next: seq<Message>, note: string, count: nat, ghost to: nat)
    requires Removing(ms, out, index, from, gone, keep) && from < |ms| && from + keep < |ms|
    requires index < |out| && out[index] == ms[from] && |out| - index == |ms| - from
    requires ms[from].role == User || ms[from].role == Assistant
    ensures from < to && count == to - from && Removing(ms, next, index, to, gone + Places(from, to), keep)
    ensures Remarks(ms, to, gone + Places(from, to), r) == Remarks(ms, from, gone, r) + [note]
    ensures gone + Places(from, to) != {}
    ensures to <= |ms| && forall k :: from < k < to ==> ms[k].role == Tool
  {
    var message := out[index];
    var end := index + 1;
    if message.role == Assistant && message.calls != [] {
      end := EndOfExchange(out, index);
    }
    note := Remark(message, r);
    to := from + (end - index);
    next := out[..index] + out[end..];
    ExchangeRemoved(ms, out, index, from, end, to, gone, keep, next);
    RemarkOne(ms, from, to, gone, gone + Places(from, to), r);
    assert from in Places(from, to);
    count := end - index;
  }

  lemma AtIndex(ms: seq<Message>, out: seq<Message>, index: nat, from: nat, gone: set<nat>, keep: nat)
    requires Removing(ms, out, index, from, gone, keep)
    ensures |out| - index == |ms| - from && (index < |out| ==> out[index] == ms[from])
    ensures out == Select(ms, |ms|, gone)
  {
    SelectRest(ms, from, |ms|, gone);
    assert ms[from..|ms|] == ms[from..];
  }

  /** Only system messages, unanswerable results, and the most recent messages are left. */
  ghost predicate OnlyRecentLeft(ms: seq<Message>, gone: set<nat>, keep: nat) {
    forall i :: 0 <= i < |ms| && i + keep < |ms| ==> i in gone || ms[i].role == System || ms[i].role == Tool
  }

  lemma ExchangeRemoved(ms: seq<Message>, out: seq<Message>, index: nat, from: nat, end: nat, to: nat, gone: set<nat>, keep: nat, next: seq<Message>)
    requires Removing(ms, out, index, from, gone, keep) && from + keep < |ms|
    requires index < end <= |out| && to == from + (end - index) && next == out[..index] + out[end..]
    requires out[index] == ms[from] && (ms[from].role == User || ms[from].role == Assistant)
    requires forall k :: index < k < end ==> out[k].role == Tool
    requires if ms[from].role == Assistant && ms[from].calls != []
             then end < |out| ==> out[end].role != Tool || out[end].answers !in CallIds(ms[from])
             else end == index + 1
    ensures to <= |ms| && Removing(ms, next, index, to, gone + Places(from, to), keep)
    ensures forall k :: from < k < to ==> ms[k].role == Tool
  {
    RestAligned(ms, out, index, from, gone, keep);
    ResultsAligned(ms, out, index, from, end, to);
    if Paired(ms) && to < |ms| {
      BlockEnds(ms, from, to);
    }
    RemoveSome(ms, out, index, from, to, gone, keep, next);
  }

  datatype Removal = Removal(out: seq<Message>, notes: seq<string>, removed: nat, index: nat)

  ghost predicate Underway(ms: seq<Message>, at: Removal, from: nat, gone: set<nat>, keep: nat, r: Rendering) {
    && Removing(ms, at.out, at.index, from, gone, keep)
    && (at.removed == 0 <==> gone == {})
    && at.notes == Remarks(ms, from, gone, r)
  }

  /** What the last removal took: the oldest message left that may go, with the results behind it. */
  ghost predicate OldestExchange(ms: seq<Message>, gone: set<nat>, last: set<nat>, from: nat, to: nat) {
    && from < to <= |ms| && gone == last + Places(from, to)
    && (ms[from].role == User || ms[from].role == Assistant)
    && (forall k :: from < k < to ==> ms[k].role == Tool)
    && (forall i :: i in last ==> i < from)
    && (forall i :: 0 <= i < from ==> i in last || ms[i].role == System || ms[i].role == Tool)
  }

  lemma TheOldest(ms: seq<Message>, out: seq<Message>, index: nat, from: nat, gone: set<nat>, keep: nat, to: nat)
    requires Removing(ms, out, index, from, gone, keep) && from < to <= |ms|
    requires ms[from].role == User || ms[from].role == Assistant
    requires forall k :: from < k < to ==> ms[k].role == Tool
    ensures OldestExchange(ms, gone + Places(from, to), gone, from, to)
  {
  }

  /** One round of the loop: pass over the message at the index, or remove it with its results. */
  method PassOrRemove(ms: seq<Message>, at: Removal, ghost from: nat, ghost gone: set<nat>, ghost keep: nat, r: Rendering)
    returns (next: Removal, ghost to: nat, ghost more: set<nat>)
    requires Underway(ms, at, from, gone, keep, r) && at.index + keep < |at.out|
    ensures from < to && Underway(ms, next, to, more, keep, r)
    ensures more == gone || OldestExchange(ms, more, gone, from, to)
  {
    AtIndex(ms, at.out, at.index, from, gone, keep);
    if at.out[at.index].role == System || at.out[at.index].role == Tool {
      KeepOne(ms, at.out, at.index, from, gone, keep);
      RemarksOfKept(ms, from, from + 1, gone, r);
      return at.(index := at.index + 1), from + 1, gone;
    }
    var out, note, count;
    out, note, count, to := RemoveNext(ms, at.out, at.index, from, gone, keep, r);
    more := gone + Places(from, to);
    TheOldest(ms, at.out, at.index, from, gone, keep, to);
    next := Removal(out, at.notes + [note], at.removed + count, at.index);
  }

  /** Drop old exchanges whole, oldest first, until the budget is met or only system messages and the most recent
      ones are left. */
  method RemoveExchanges(ms: seq<Message>, keep: nat, maxTokens: nat, r: Rendering)
    returns (
      out: seq<Message>, notes: seq<string>, removed: nat, ghost gone: set<nat>, ghost last: set<nat>, ghost start: nat, ghost end: nat)
    ensures MayRemove(ms, gone, keep) && out == Select(ms, |ms|, gone)
    ensures removed == 0 <==> gone == {}
    ensures notes == Remarks(ms, |ms|, gone, r)
    ensures r.estimate(out) <= maxTokens || OnlyRecentLeft(ms, gone, keep)
    ensures gone != {} ==> OldestExchange(ms, gone, last, start, end) && r.estimate(Select(ms, |ms|, last)) > maxTokens
  {
    var at := Removal(ms, [], 0, 0);
    gone, last, start, end := {}, {}, 0, 0;
    ghost var from := 0;
    RemovalStarts(ms, keep, r);
    while r.estimate(at.out) > maxTokens && at.index + keep < |at.out|
      invariant Underway(ms, at, from, gone, keep, r)
      invariant gone != {} ==> OldestExchange(ms, gone, last, start, end) && r.estimate(Select(ms, |ms|, last)) > maxTokens
      decreases |ms| - from
    {
      AtIndex(ms, at.out, at.index, from, gone, keep);
      ghost var was, begun := gone, from;
      at, from, gone := PassOrRemove(ms, at, from, gone, keep, r);
      if gone != was {
        last, start, end := was, begun, from;
      }
    }
    RemovalEnds(ms, at, from, gone, keep, r);
    return at.out, at.notes, at.removed, gone, last, start, end;
  }

  lemma RemovalStarts(ms: seq<Message>, keep: nat, r: Rendering)
    ensures Underway(ms, Removal(ms, [], 0, 0), 0, {}, keep, r)
  {
    assert Select(ms, 0, {}) == [] && [] + ms[0..] == ms;
  }

  lemma RemovalEnds(ms: seq<Message>, at: Removal, from: nat, gone: set<nat>, keep: nat, r: Rendering)
    requires Underway(ms, at, from, gone, keep, r)
    ensures MayRemove(ms, gone, keep) && at.out == Select(ms, |ms|, gone) && at.notes == Remarks(ms, |ms|, gone, r)
    ensures at.index + keep >= |at.out| ==> OnlyRecentLeft(ms, gone, keep)
  {
    AtIndex(ms, at.out, at.index, from, gone, keep);
    RemarksOfKept(ms, from, |ms|, gone, r);
  }

  /** The part of the list still to be looked at. */
  lemma RestAligned(ms: seq<Message>, out: seq<Message>, index: nat, from: nat, gone: set<nat>, keep: nat)
    requires Removing(ms, out, index, from, gone, keep)
    ensures index <= |out| && out[index..] == ms[from..]
  {
  }

  lemma ResultsAligned(ms: seq<Message>, out: seq<Message>, index: nat, from: nat, end: nat, to: nat)
    requires from <= |ms| && index < end <= |out| && out[index..] == ms[from..] && to == from + (end - index)
    ensures to <= |ms| && (to < |ms| <==> end < |out|) && (to < |ms| ==> ms[to] == out[end])
    ensures (forall k :: index < k < end ==> out[k].role == Tool) ==> forall k :: from < k < to ==> ms[k].role == Tool
  {
    assert |out| - index == |ms| - from;
    forall k | from <= k < |ms| ensures ms[k] == out[index + (k - from)] {
      assert ms[from..][k - from] == out[index..][k - from];
    }
  }

  /** Where a message and its results end, no further result follows. */
  lemma BlockEnds(ms: seq<Message>, from: nat, to: nat)
    requires Paired(ms) && from < to < |ms| && ms[from].role != Tool
    requires forall k :: from < k < to ==> ms[k].role == Tool
    requires if ms[from].role == Assistant && ms[from].calls != []
             then ms[to].role != Tool || ms[to].answers !in CallIds(ms[from])
             else to == from + 1
    ensures ms[to].role != Tool
  {
    if ms[from].role == Assistant && ms[from].calls != [] {
      OpenInBlock(ms, from, to);
    } else {
      NoResultsAfter(ms, from);
    }
  }

  // ---- the note, and the last resort ----

  function LastOf(xs: seq<string>, n: nat): seq<string> {
    if |xs| <= n then xs else xs[|xs| - n..]
  }

  function Joined(xs: seq<string>): string {
    if xs == [] then "" else if |xs| == 1 then xs[0] else xs[0] + "\n" + Joined(xs[1..])
  }

  function NoteText(summaries: seq<string>): (t: string)
    ensures |t| <= 8000
  {
    var whole := "Earlier context compacted deterministically.\n" + Joined(LastOf(summaries, 20));
    if |whole| <= 8000 then whole else whole[..8000]
  }

  /** The lines are joined by line feeds, */
  lemma {:induction false} JoinedOneMore(xs: seq<string>, x: string)
    ensures Joined([]) == ""
    ensures Joined(xs + [x]) == if xs == [] then x else Joined(xs) + "\n" + x
  {
    if xs != [] {
      assert (xs + [x])[1..] == xs[1..] + [x];
      JoinedOneMore(xs[1..], x);
      if |xs| > 1 {
        Regroup(xs[0] + "\n", Joined(xs[1..]) + "\n", x);
        Regroup(xs[0] + "\n", Joined(xs[1..]), "\n");
      }
    } else {
      assert [] + [x] == [x];
    }
  }

  /** and the note is the heading with the last twenty of them, cut to 8000 characters. */
  lemma NoteMeaning(summaries: seq<string>, whole: string)
    requires whole == "Earlier context compacted deterministically.\n"
                      + Joined(if |summaries| > 20 then summaries[|summaries| - 20..] else summaries)
    ensures NoteText(summaries) <= whole && |NoteText(summaries)| == if |whole| < 8000 then |whole| else 8000
  {
  }

  /** The note is inserted behind a leading system message, otherwise in front. */
  lemma NotePlaceMeaning(ms: seq<Message>, note: Message)
    ensures ms != [] && ms[0].role == System ==> NotePlace(ms) == 1 && WithNote(ms, note) == [ms[0], note] + ms[1..]
    ensures ms == [] || ms[0].role != System ==> NotePlace(ms) == 0 && WithNote(ms, note) == [note] + ms
  {
    if ms != [] && ms[0].role == System {
      assert ms[..1] == [ms[0]];
    } else {
      assert ms[..0] == [] && ms[0..] == ms;
    }
  }

  function NotePlace(ms: seq<Message>): (at: nat)
    ensures at <= |ms|
  {
    if ms != [] && ms[0].role == System then 1 else 0
  }

  function WithNote(ms: seq<Message>, note: Message): seq<Message> {
    ms[..NotePlace(ms)] + [note] + ms[NotePlace(ms)..]
  }

  lemma {:induction false} OpenBehindNote(ms: seq<Message>, note: Message, n: nat)
    requires Paired(ms) && note.role != Tool && note.calls == []
    requires NotePlace(ms) < n <= |ms|
    ensures Open(WithNote(ms, note), n + 1) == Open(ms, n)
  {
    if n - 1 > NotePlace(ms) {
      OpenBehindNote(ms, note, n - 1);
    }
    assert WithNote(ms, note)[n] == ms[n - 1];
  }

  /** The note goes where no result can lose its call. */
  lemma NoteKeepsPaired(ms: seq<Message>, note: Message)
    requires Paired(ms) && note.role != Tool && note.calls == []
    ensures Paired(WithNote(ms, note))
  {
    var out, at := WithNote(ms, note), NotePlace(ms);
    forall i | 0 <= i < |out| && out[i].role == Tool ensures out[i].answers in Open(out, i) {
      if i > at {
        assert out[i] == ms[i - 1];
        assert ms[i - 1].answers in Open(ms, i - 1);
        assert i - 1 > at;
        OpenBehindNote(ms, note, i - 1);
      }
    }
  }

  /** Each message is as before or, if it was long, an excerpt of itself; whatever was cut was at least as long as
      whatever was not. */
  predicate Excerpted(ms: seq<Message>, out: seq<Message>) {
    && |out| == |ms|
    && (forall i :: 0 <= i < |ms| ==>
          out[i] == ms[i] || (|ms[i].content| > 800 && out[i] == ms[i].(content := Excerpt(ms[i].content))))
    && forall i, j :: 0 <= i < |ms| && 0 <= j < |ms| && out[i] != ms[i] && out[j] == ms[j] ==>
         |ms[j].content| <= |ms[i].content|
  }

  function TooLong(ms: seq<Message>): set<nat> {
    set i: nat | i < |ms| && |ms[i].content| > 800
  }

  /** `max(candidates)`: the longest message, the last of equals. */
  method Longest(ms: seq<Message>) returns (index: nat)
    requires TooLong(ms) != {}
    ensures index in TooLong(ms) && forall i :: i in TooLong(ms) ==> |ms[i].content| <= |ms[index].content|
    ensures forall i :: index < i < |ms| ==> |ms[i].content| < |ms[index].content|
  {
    var first :| first in TooLong(ms);
    index := first;
    for i := 0 to |ms|
      invariant index in TooLong(ms)
      invariant forall k :: k in TooLong(ms) && k < i ==> |ms[k].content| <= |ms[index].content|
      invariant forall k :: index < k < i ==> |ms[k].content| < |ms[index].content|
    {
      if |ms[i].content| > 800 && |ms[i].content| >= |ms[index].content| {
        index := i;
      }
    }
  }

  lemma NoneTooLong(ms: seq<Message>)
    requires TooLong(ms) == {}
    ensures forall i :: 0 <= i < |ms| ==> |ms[i].content| <= 800
  {
    forall i | 0 <= i < |ms| ensures |ms[i].content| <= 800 {
      assert i !in TooLong(ms);
    }
  }

  lemma LongestOfAll(ms: seq<Message>, index: nat)
    requires index in TooLong(ms) && forall i :: i in TooLong(ms) ==> |ms[i].content| <= |ms[index].content|
    ensures index < |ms| && forall i :: 0 <= i < |ms| ==> |ms[i].content| <= |ms[index].content|
  {
    forall i | 0 <= i < |ms| ensures |ms[i].content| <= |ms[index].content| {
      assert i in TooLong(ms) || |ms[i].content| <= 800;
    }
  }

  lemma ExcerptOne(ms: seq<Message>, out: seq<Message>, index: nat)
    requires Excerpted(ms, out) && index in TooLong(out)
    requires forall i :: i in TooLong(out) ==> |out[i].content| <= |out[index].content|
    ensures var next := out[index := out[index].(content := Excerpt(out[index].content))];
            Excerpted(ms, next) && TooLong(next) < TooLong(out)
  {
    var next := out[index := out[index].(content := Excerpt(out[index].content))];
    assert out[index] == ms[index];
    assert index !in TooLong(next);
    forall i, j | 0 <= i < |ms| && 0 <= j < |ms| && next[i] != ms[i] && next[j] == ms[j]
      ensures |ms[j].content| <= |ms[i].content|
    {
      if i == index {
        assert out[j] == ms[j];
      } else if j == index {
        assert out[i] != ms[i] && out[index] == ms[index];
      }
    }
  }

  /** Cutting stops in time: before the last cut the conversation was still too large, and the message cut was the longest,
      the last of equals. */
  ghost predicate CutInTime(before: seq<Message>, out: seq<Message>, index: nat, maxTokens: nat, r: Rendering) {
    && index < |before| && r.estimate(before) > maxTokens
    && out == before[index := before[index].(content := Excerpt(before[index].content))]
    && (forall i :: 0 <= i < |before| ==> |before[i].content| <= |before[index].content|)
    && (forall i :: index < i < |before| ==> |before[i].content| < |before[index].content|)
  }

  /** Cut the longest content to an excerpt until the budget is met or none is long. */
  method ExcerptLongest(ms: seq<Message>, maxTokens: nat, r: Rendering)
    returns (out: seq<Message>, ghost previous: seq<Message>, ghost longest: nat)
    ensures Excerpted(ms, out)
    ensures r.estimate(out) <= maxTokens || forall i :: 0 <= i < |out| ==> |out[i].content| <= 800
    ensures out == ms || (Excerpted(ms, previous) && CutInTime(previous, out, longest, maxTokens, r))
  {
    out, previous, longest := ms, ms, 0;
    while r.estimate(out) > maxTokens
      invariant Excerpted(ms, out)
      invariant out == ms || (Excerpted(ms, previous) && CutInTime(previous, out, longest, maxTokens, r))
      decreases TooLong(out)
    {
      if TooLong(out) == {} {
        NoneTooLong(out);
        return;
      }
      var index := Longest(out);
      ExcerptOne(ms, out, index);
      LongestOfAll(out, index);
      previous, longest := out, index;
      out := out[index := out[index].(content := Excerpt(out[index].content))];
    }
  }

  // ---- the whole compaction ----

  predicate AllBounded(a: seq<Message>, b: seq<Message>, r: Rendering) {
    |a| == |b| && forall i :: 0 <= i < |a| ==> BoundedMessage(a[i], b[i], r)
  }

  lemma {:induction false} SelectPointwise(a: seq<Message>, b: seq<Message>, n: nat, gone: set<nat>, r: Rendering)
    requires AllBounded(a, b, r) && n <= |a|
    ensures AllBounded(Select(a, n, gone), Select(b, n, gone), r)
  {
    if n > 0 {
      SelectPointwise(a, b, n - 1, gone, r);
    }
  }

  lemma SameRemoval(a: seq<Message>, b: seq<Message>, gone: set<nat>, keep: nat)
    requires SameShapes(a, b) && MayRemove(b, gone, keep)
    ensures MayRemove(a, gone, keep)
  {
    if Paired(a) {
      SameShapesStayPaired(a, b);
    }
  }

  function SummarisedIfLong(m: Message, limit: nat, r: Rendering): Message {
    if LongResult(m, limit) then Summarised(m, r) else m
  }

  /** A message after every shortening in place: long arguments rendered, an old result over 1200 characters
      summarised, and any result still over 8000. */
  function FullyBounded(m: Message, old_: bool, r: Rendering): Message {
    var first := BoundCalls(m, r);
    SummarisedIfLong(if old_ then SummarisedIfLong(first, 1200, r) else first, 8000, r)
  }

  lemma {:induction false} SameResultsSameNotes(a: seq<Message>, b: seq<Message>, n: nat, limit: nat, r: Rendering)
    requires |a| == |b| && n <= |a| && forall i :: 0 <= i < |a| ==> a[i].role == b[i].role && a[i].content == b[i].content
    ensures EarlyNotes(a, n, limit, r) == EarlyNotes(b, n, limit, r)
  {
    if n > 0 {
      SameResultsSameNotes(a, b, n - 1, limit, r);
    }
  }

  /** How the three passes shorten: long arguments everywhere; then old results over 1200 characters, oldest first, and
      then, if that was not enough, any result over 8000, each in time. */
  ghost predicate BoundedInTime(ms: seq<Message>, out: seq<Message>, keep: nat, maxTokens: nat, r: Rendering, cut: nat, later: nat) {
    var first := seq(|ms|, i requires 0 <= i < |ms| => BoundCalls(ms[i], r));
    var second := Stage(first, cut, 1200, r);
    && SummarisedInTime(first, cut, if |ms| > keep then |ms| - keep else 0, 1200, maxTokens, r)
    && out == Stage(second, later, 8000, r)
    && if r.estimate(second) <= maxTokens then later == 0 else SummarisedInTime(second, later, |ms|, 8000, maxTokens, r)
  }

  lemma NothingSummarised(ms: seq<Message>, limit: nat, r: Rendering)
    ensures Stage(ms, 0, limit, r) == ms
  {
  }

  /** The three passes that shorten in place. */
  method Bound(ms: seq<Message>, keep: nat, maxTokens: nat, r: Rendering)
    returns (out: seq<Message>, notes: seq<string>, ghost cut: nat, ghost later: nat)
    ensures AllBounded(ms, out, r)
    ensures BoundedInTime(ms, out, keep, maxTokens, r, cut, later)
    ensures cut + keep <= |ms| || cut == 0
    ensures notes == EarlyNotes(ms, cut, 1200, r)
    ensures r.estimate(out) <= maxTokens || forall i :: 0 <= i < |ms| ==> out[i] == FullyBounded(ms[i], i + keep < |ms|, r)
  {
    var first := BoundArguments(ms, r);
    var protectedFrom := if |ms| > keep then |ms| - keep else 0;
    var second;
    second, notes, cut := BoundResults(first, protectedFrom, 1200, maxTokens, r, []);
    SameResultsSameNotes(ms, first, cut, 1200, r);
    if r.estimate(second) <= maxTokens {
      NothingSummarised(second, 8000, r);
      StagesAreBounded(ms, first, second, second, keep, maxTokens, r, cut, 0);
      return second, notes, cut, 0;
    }
    var unused;
    out, unused, later := BoundResults(second, |second|, 8000, maxTokens, r, notes);
    StagesAreBounded(ms, first, second, out, keep, maxTokens, r, cut, later);
  }

  lemma StagesAreBounded(
    ms: seq<Message>, first: seq<Message>, second: seq<Message>, out: seq<Message>, keep: nat, maxTokens: nat, r: Rendering,
    cut: nat, later: nat)
    requires |first| == |ms| && forall i :: 0 <= i < |ms| ==> first[i] == BoundCalls(ms[i], r)
    requires SummarisedTo(first, second, cut, 1200, r) && SummarisedTo(second, out, later, 8000, r)
    requires SummarisedInTime(first, cut, if |ms| > keep then |ms| - keep else 0, 1200, maxTokens, r)
    requires if r.estimate(second) <= maxTokens then later == 0 else SummarisedInTime(second, later, |ms|, 8000, maxTokens, r)
    ensures AllBounded(ms, out, r) && BoundedInTime(ms, out, keep, maxTokens, r, cut, later)
  {
    assert first == seq(|ms|, i requires 0 <= i < |ms| => BoundCalls(ms[i], r));
    SummarisedIsStage(first, second, cut, 1200, r);
    SummarisedIsStage(second, out, later, 8000, r);
    forall i | 0 <= i < |ms| ensures BoundedMessage(ms[i], out[i], r) {
      assert first[i] == BoundCalls(ms[i], r);
    }
  }

  /** The output, apart from the note, is made of the messages that were kept, each derived from its original. */
  ghost predicate MadeFrom(ms: seq<Message>, gone: set<nat>, note: Message, out: seq<Message>, r: Rendering) {
    var kept := Select(ms, |ms|, gone);
    if gone == {} then |out| == |kept| && forall i :: 0 <= i < |kept| ==> DerivedFrom(kept[i], out[i], r)
    else
      var at := NotePlace(kept);
      && |out| == |kept| + 1 && (out[at] == note || (|note.content| > 800 && out[at] == note.(content := Excerpt(note.content))))
      && forall i :: 0 <= i < |kept| ==> DerivedFrom(kept[i], out[if i < at then i else i + 1], r)
  }

  lemma ExcerptsAreDerived(was: seq<Message>, mid: seq<Message>, out: seq<Message>, r: Rendering)
    requires AllBounded(was, mid, r) && Excerpted(mid, out)
    ensures forall i :: 0 <= i < |was| ==> DerivedFrom(was[i], out[i], r)
  {
    forall i | 0 <= i < |was| ensures DerivedFrom(was[i], out[i], r) {
      assert BoundedMessage(was[i], mid[i], r);
    }
  }

  lemma NotedAreDerived(was: seq<Message>, mid: seq<Message>, note: Message, out: seq<Message>, r: Rendering)
    requires AllBounded(was, mid, r) && Excerpted(WithNote(mid, note), out)
    ensures NotePlace(was) == NotePlace(mid)
    ensures var at := NotePlace(was);
            && |out| == |was| + 1 && (out[at] == note || (|note.content| > 800 && out[at] == note.(content := Excerpt(note.content))))
            && forall i :: 0 <= i < |was| ==> DerivedFrom(was[i], out[if i < at then i else i + 1], r)
  {
    var at := NotePlace(was);
    var noted := WithNote(mid, note);
    assert was != [] ==> BoundedMessage(was[0], mid[0], r);
    assert noted[at] == note;
    forall i | 0 <= i < |was| ensures DerivedFrom(was[i], out[if i < at then i else i + 1], r) {
      assert BoundedMessage(was[i], mid[i], r);
      assert noted[if i < at then i else i + 1] == mid[i];
    }
  }

  lemma ExcerptsStayPaired(ms: seq<Message>, out: seq<Message>)
    requires Excerpted(ms, out) && Paired(ms)
    ensures Paired(out)
  {
    SameShapesStayPaired(ms, out);
  }

  lemma RemovalIsSound(ms: seq<Message>, bounded: seq<Message>, gone: set<nat>, keep: nat, r: Rendering)
    requires AllBounded(ms, bounded, r) && MayRemove(bounded, gone, keep)
    ensures MayRemove(ms, gone, keep)
    ensures var kept := Select(bounded, |bounded|, gone);
            AllBounded(Select(ms, |ms|, gone), kept, r) && (Paired(ms) ==> Paired(kept))
  {
    SameRemoval(ms, bounded, gone, keep);
    SelectPointwise(ms, bounded, |ms|, gone, r);
    if Paired(ms) {
      SameShapesStayPaired(ms, bounded);
      SelectedIsPaired(bounded, |bounded|, gone);
    }
  }

  lemma MadeWithoutNote(ms: seq<Message>, gone: set<nat>, kept: seq<Message>, note: Message, out: seq<Message>, r: Rendering)
    requires AllBounded(Select(ms, |ms|, gone), kept, r) && gone == {} && Excerpted(kept, out)
    ensures MadeFrom(ms, gone, note, out, r) && (Paired(kept) ==> Paired(out))
  {
    ExcerptsAreDerived(Select(ms, |ms|, gone), kept, out, r);
    if Paired(kept) {
      ExcerptsStayPaired(kept, out);
    }
  }

  lemma MadeWithNote(ms: seq<Message>, gone: set<nat>, kept: seq<Message>, note: Message, out: seq<Message>, r: Rendering)
    requires AllBounded(Select(ms, |ms|, gone), kept, r) && gone != {} && Excerpted(WithNote(kept, note), out)
    requires note.role != Tool && note.calls == []
    ensures MadeFrom(ms, gone, note, out, r) && (Paired(kept) ==> Paired(out))
  {
    NotedAreDerived(Select(ms, |ms|, gone), kept, note, out, r);
    if Paired(kept) {
      NoteKeepsPaired(kept, note);
      ExcerptsStayPaired(WithNote(kept, note), out);
    }
  }

  /** The points at which the passes stopped: the last result of the second summarising, the exchange removed last and
      what was gone before it, the conversation before any cut, and before the last one. */
  datatype Way = Way(
    later: nat, last: set<nat>, start: nat, end: nat, uncut: seq<Message>, previous: seq<Message>, longest: nat)

  /** Nothing is shortened, removed or cut in vain: before the last step of each pass the conversation was still too large. */
  ghost predicate StoppedInTime(
    ms: seq<Message>, out: seq<Message>, keep: nat, maxTokens: nat, r: Rendering, gone: set<nat>, bounded: seq<Message>, cut: nat,
    note: Message, way: Way)
  {
    && BoundedInTime(ms, bounded, keep, maxTokens, r, cut, way.later)
    && (gone != {} ==> && OldestExchange(bounded, gone, way.last, way.start, way.end)
                       && r.estimate(Select(bounded, |bounded|, way.last)) > maxTokens)
    && (out == way.uncut || CutInTime(way.previous, out, way.longest, maxTokens, r))
    && way.uncut == if gone == {} then bounded else WithNote(Select(bounded, |bounded|, gone), note)
  }

  lemma {:induction false} SelectAll(ms: seq<Message>, n: nat)
    requires n <= |ms|
    ensures Select(ms, n, {}) == ms[..n]
  {
    if n > 0 {
      SelectAll(ms, n - 1);
    }
  }

  /** What the passes before the last leave: the messages kept, with the note if any were removed. */
  ghost predicate Shortened(
    ms: seq<Message>, keep: nat, maxTokens: nat, r: Rendering, gone: set<nat>, bounded: seq<Message>, cut: nat, note: Message,
    whole: seq<Message>)
  {
    && MayRemove(bounded, gone, keep) && AllBounded(ms, bounded, r) && cut <= |ms|
    && whole == (if gone == {} then bounded else WithNote(Select(bounded, |bounded|, gone), note))
    && note.content == NoteText(EarlyNotes(ms, cut, 1200, r) + Remarks(bounded, |ms|, gone, r)) && note.calls == [] && note.answers == ""
    && (r.estimate(Select(bounded, |bounded|, gone)) <= maxTokens || OnlyRecentLeft(bounded, gone, keep))
  }

  method Shorten(ms: seq<Message>, keep: nat, maxTokens: nat, noteRole: Role, r: Rendering)
    returns (whole: seq<Message>, note: Message, ghost gone: set<nat>, ghost bounded: seq<Message>, ghost cut: nat, ghost way: Way)
    ensures Shortened(ms, keep, maxTokens, r, gone, bounded, cut, note, whole) && note.role == noteRole
    ensures BoundedInTime(ms, bounded, keep, maxTokens, r, cut, way.later)
    ensures gone != {} ==> && OldestExchange(bounded, gone, way.last, way.start, way.end)
                           && r.estimate(Select(bounded, |bounded|, way.last)) > maxTokens
  {
    ghost var later, last, start, end;
    var shortened, notes, kept, summaries, removed;
    shortened, notes, cut, later := Bound(ms, keep, maxTokens, r);
    bounded := shortened;
    kept, summaries, removed, gone, last, start, end := RemoveExchanges(shortened, keep, maxTokens, r);
    SelectAll(bounded, |bounded|);
    assert bounded[..|bounded|] == bounded;
    note := Message(noteRole, NoteText(notes + summaries), [], "");
    whole := if removed == 0 then kept else WithNote(kept, note);
    way := Way(later, last, start, end, whole, whole, 0);
  }

  lemma CompactionIsSound(
    ms: seq<Message>, keep: nat, maxTokens: nat, r: Rendering, gone: set<nat>, bounded: seq<Message>, cut: nat, note: Message,
    whole: seq<Message>, out: seq<Message>)
    requires Shortened(ms, keep, maxTokens, r, gone, bounded, cut, note, whole) && note.role != Tool && Excerpted(whole, out)
    ensures MayRemove(ms, gone, keep) && MadeFrom(ms, gone, note, out, r) && (Paired(ms) ==> Paired(out))
    ensures r.estimate(Select(bounded, |bounded|, gone)) <= maxTokens || OnlyRecentLeft(ms, gone, keep)
  {
    var kept := Select(bounded, |bounded|, gone);
    RemovalIsSound(ms, bounded, gone, keep, r);
    SelectAll(bounded, |bounded|);
    assert bounded[..|bounded|] == bounded;
    if gone == {} {
      MadeWithoutNote(ms, gone, kept, note, out, r);
    } else {
      MadeWithNote(ms, gone, kept, note, out, r);
    }
    SameRecent(ms, bounded, gone, keep, r);
  }

  lemma SameRecent(ms: seq<Message>, bounded: seq<Message>, gone: set<nat>, keep: nat, r: Rendering)
    requires AllBounded(ms, bounded, r)
    ensures OnlyRecentLeft(bounded, gone, keep) ==> OnlyRecentLeft(ms, gone, keep)
  {
    assert forall i :: 0 <= i < |ms| ==> BoundedMessage(ms[i], bounded[i], r);
  }

  /** `compact_agent_context`. A conversation that fits is returned as it is. Otherwise no system message is
      removed, nothing that starts among the last `keep` messages is removed, calls and results go together, so the
      tool protocol is kept; the result fits, or has no content longer than 800 characters; and nothing is shortened,
      removed or cut once it fits. */
  method CompactAgentContext(ms: seq<Message>, maxTokens: nat, keep: nat, noteRole: Role, r: Rendering)
    returns (out: seq<Message>, ghost gone: set<nat>, ghost bounded: seq<Message>, ghost cut: nat, ghost note: Message, ghost way: Way)
    requires noteRole != Tool
    ensures r.estimate(ms) <= maxTokens ==> out == ms
    ensures Paired(ms) ==> Paired(out)
    ensures r.estimate(out) <= maxTokens || forall i :: 0 <= i < |out| ==> |out[i].content| <= 800
    ensures MayRemove(ms, gone, keep)
    ensures r.estimate(ms) > maxTokens ==>
              && AllBounded(ms, bounded, r) && cut <= |ms|
              && note == Message(noteRole, NoteText(EarlyNotes(ms, cut, 1200, r) + Remarks(bounded, |ms|, gone, r)), [], "")
              && MadeFrom(ms, gone, note, out, r)
              && StoppedInTime(ms, out, keep, maxTokens, r, gone, bounded, cut, note, way)
              && (r.estimate(Select(bounded, |bounded|, gone)) <= maxTokens || OnlyRecentLeft(ms, gone, keep))
  {
    if r.estimate(ms) <= maxTokens {
      return ms, {}, ms, 0, Message(noteRole, "", [], ""), Way(0, {}, 0, 0, ms, ms, 0);
    }
    var whole, text;
    whole, text, gone, bounded, cut, way := Shorten(ms, keep, maxTokens, noteRole, r);
    note := text;
    ghost var previous, longest;
    out, previous, longest := ExcerptLongest(whole, maxTokens, r);
    way := way.(uncut := whole, previous := previous, longest := longest);
    CompactionIsSound(ms, keep, maxTokens, r, gone, bounded, cut, note, whole, out);
  }

  // ---- what a removal within bounds leaves ----

  lemma {:induction false} BlockGoesTogether(ms: seq<Message>, gone: set<nat>, from: nat, i: nat)
    requires WholeExchanges(ms, gone) && from <= i < |ms|
    requires forall k :: from < k <= i ==> ms[k].role == Tool
    ensures from in gone <==> i in gone
  {
    if from < i {
      BlockGoesTogether(ms, gone, from, i - 1);
      assert ms[i - 1 + 1].role == Tool;
    }
  }

  /** Of the last `keep` messages only results of an older call can be lost: all of them stay unless they begin with
      a tool result. */
  lemma {:induction false} RecentMessagesStay(ms: seq<Message>, gone: set<nat>, keep: nat, i: nat)
    requires Paired(ms) && MayRemove(ms, gone, keep)
    requires 0 < keep <= |ms| && |ms| - keep <= i < |ms|
    requires ms[|ms| - keep].role != Tool
    ensures i !in gone
  {
    if ms[i].role == Tool && i in gone {
      assert ms[i - 1 + 1].role == Tool;
      RecentMessagesStay(ms, gone, keep, i - 1);
    }
  }
}
