/** Leftmost non-overlapping replacement of one non-empty string by another, as `str.replace` does it. */
module Replacing {
  import opened Common

  function Replace<T(==)>(s: seq<T>, old_: seq<T>, new_: seq<T>): seq<T>
    requires old_ != []
    decreases |s|
  {
    if old_ <= s then new_ + Replace(s[|old_|..], old_, new_)
    else if s == [] then []
    else [s[0]] + Replace(s[1..], old_, new_)
  }

  function Count<T(==)>(s: seq<T>, old_: seq<T>): nat
    requires old_ != []
    decreases |s|
  {
    if old_ <= s then 1 + Count(s[|old_|..], old_)
    else if s == [] then 0
    else Count(s[1..], old_)
  }

  /** `find`: where the first match starts. */
  function Find<T(==)>(s: seq<T>, old_: seq<T>): (r: Option<nat>)
    requires old_ != []
    ensures r.Some? ==> r.value + |old_| <= |s| && old_ <= s[r.value..]
  {
    if old_ <= s then Some(0)
    else if s == [] then None
    else match Find(s[1..], old_)
      case Some(i) =>
        assert s[1..][i..] == s[i + 1..];
        Some(i + 1)
      case None => None
  }

  /** No match starts before the one `find` returns, nor anywhere when it returns none. */
  lemma {:induction false} FindIsFirst<T>(s: seq<T>, old_: seq<T>, k: nat)
    requires old_ != [] && k <= |s|
    requires Find(s, old_).Some? ==> k < Find(s, old_).value
    ensures !(old_ <= s[k..])
  {
    if k == 0 {
      assert s[0..] == s;
    } else {
      FindIsFirst(s[1..], old_, k - 1);
      assert s[1..][k - 1..] == s[k..];
    }
  }

  predicate NoMatchBefore<T(==)>(s: seq<T>, old_: seq<T>, k: nat)
    requires k <= |s|
  {
    forall j: nat :: j < k ==> !(old_ <= s[j..])
  }

  lemma {:induction false} SkipUnmatched<T>(s: seq<T>, old_: seq<T>, new_: seq<T>, k: nat)
    requires old_ != [] && k <= |s| && NoMatchBefore(s, old_, k)
    ensures Replace(s, old_, new_) == s[..k] + Replace(s[k..], old_, new_)
    ensures Count(s, old_) == Count(s[k..], old_)
  {
    if k == 0 {
      assert s[0..] == s;
    } else {
      assert s[0..] == s && !(old_ <= s[0..]);
      forall j: nat | j < k - 1 ensures !(old_ <= s[1..][j..]) {
        assert s[1..][j..] == s[j + 1..];
      }
      SkipUnmatched(s[1..], old_, new_, k - 1);
      assert s[1..][k - 1..] == s[k..];
      assert s[..k] == [s[0]] + s[1..][..k - 1];
    }
  }

  /** What replacing does: the first place that holds the old string gets the new one, and replacing goes on behind it; */
  lemma FirstPlaceIsReplaced<T>(s: seq<T>, old_: seq<T>, new_: seq<T>, i: nat)
    requires old_ != [] && i <= |s| && old_ <= s[i..]
    requires forall j: nat :: j < i ==> !(old_ <= s[j..])
    ensures i + |old_| <= |s|
    ensures Replace(s, old_, new_) == s[..i] + (new_ + Replace(s[i + |old_|..], old_, new_))
    ensures Count(s, old_) == 1 + Count(s[i + |old_|..], old_)
  {
    SkipUnmatched(s, old_, new_, i);
    assert s[i..][|old_|..] == s[i + |old_|..];
  }

  /** where no place holds it, nothing changes. */
  lemma NoPlaceNoChange<T>(s: seq<T>, old_: seq<T>, new_: seq<T>)
    requires old_ != [] && forall j: nat :: j < |s| ==> !(old_ <= s[j..])
    ensures Replace(s, old_, new_) == s && Count(s, old_) == 0
  {
    SkipUnmatched(s, old_, new_, |s|);
    assert s[|s|..] == [] && s[..|s|] == s;
  }

  lemma SkipFront<T>(whole: seq<T>, front: seq<T>, rest: seq<T>, old_: seq<T>, new_: seq<T>)
    requires old_ != [] && whole == front + rest && NoMatchBefore(whole, old_, |front|)
    ensures Replace(whole, old_, new_) == front + Replace(rest, old_, new_)
    ensures Count(whole, old_) == Count(rest, old_)
  {
    SkipUnmatched(whole, old_, new_, |front|);
    assert whole[..|front|] == front && whole[|front|..] == rest;
  }

  lemma NoMatchInLonger<T>(s: seq<T>, rest: seq<T>, old_: seq<T>, j: nat)
    requires j + |old_| <= |s| && !(old_ <= s[j..])
    ensures !(old_ <= (s + rest)[j..])
  {
    assert s[j..] <= (s + rest)[j..];
  }

  lemma MatchInFront<T>(s: seq<T>, rest: seq<T>, old_: seq<T>, new_: seq<T>, tail: seq<T>, after: seq<T>)
    requires old_ != [] && old_ <= s && tail == s + rest && after == s[|old_|..] + rest
    ensures Replace(tail, old_, new_) == new_ + Replace(after, old_, new_)
    ensures Count(tail, old_) == 1 + Count(after, old_)
  {
    assert tail[|old_|..] == after;
  }

  /** What is replaced in text that continues: a first match found early is final. */
  lemma FirstMatchIsFinal<T>(s: seq<T>, rest: seq<T>, old_: seq<T>, new_: seq<T>, i: nat, after: seq<T>)
    requires old_ != [] && Find(s, old_) == Some(i) && after == s[i + |old_|..] + rest
    ensures Replace(s + rest, old_, new_) == s[..i] + (new_ + Replace(after, old_, new_))
    ensures Count(s + rest, old_) == 1 + Count(after, old_)
  {
    var back := s[i..];
    assert s == s[..i] + back;
    Regroup(s[..i], back, rest);
    NoneBefore(s, rest, old_, i);
    assert s[i + |old_|..] == back[|old_|..];
    MatchInFront(back, rest, old_, new_, back + rest, after);
    SkipFront(s + rest, s[..i], back + rest, old_, new_);
  }

  lemma NoneBefore<T>(s: seq<T>, rest: seq<T>, old_: seq<T>, k: nat)
    requires old_ != [] && k + |old_| <= |s|
    requires Find(s, old_).Some? ==> k <= Find(s, old_).value
    ensures NoMatchBefore(s + rest, old_, k)
  {
    forall j: nat | j < k ensures !(old_ <= (s + rest)[j..]) {
      FindIsFirst(s, old_, j);
      NoMatchInLonger(s, rest, old_, j);
    }
  }

  /** What may be written out early: all but the last `|old|` symbols of text that holds no match. */
  lemma FrontIsFinal<T>(s: seq<T>, rest: seq<T>, old_: seq<T>, new_: seq<T>, k: nat)
    requires old_ != [] && Find(s, old_).None? && k + |old_| <= |s|
    ensures Replace(s + rest, old_, new_) == s[..k] + Replace(s[k..] + rest, old_, new_)
    ensures Count(s + rest, old_) == Count(s[k..] + rest, old_)
  {
    NoneBefore(s, rest, old_, k);
    assert s == s[..k] + s[k..];
    Regroup(s[..k], s[k..], rest);
    SkipFront(s + rest, s[..k], s[k..] + rest, old_, new_);
  }

  /** The size the shrink guard predicts from the number of matches is the size of the result. */
  lemma {:induction false} ReplaceSize<T>(s: seq<T>, old_: seq<T>, new_: seq<T>)
    requires old_ != []
    ensures |Replace(s, old_, new_)| == |s| + Count(s, old_) * (|new_| - |old_|)
    decreases |s|
  {
    if old_ <= s {
      var later := s[|old_|..];
      ReplaceSize(later, old_, new_);
      OneMore(Count(later, old_), |new_| - |old_|);
    } else if s != [] {
      ReplaceSize(s[1..], old_, new_);
    }
  }

  lemma OneMore(n: nat, d: int)
    ensures (1 + n) * d == d + n * d
  {
  }

  lemma {:induction false} NoMatchNoChange<T>(s: seq<T>, old_: seq<T>, new_: seq<T>)
    requires old_ != [] && Count(s, old_) == 0
    ensures Replace(s, old_, new_) == s
    decreases |s|
  {
    if s != [] {
      NoMatchNoChange(s[1..], old_, new_);
    }
  }
}
