/**
  `_clean_response`: deletion of `<think>…</think>` spans (the regular
  expression `<think>.*?</think>` with DOTALL, replaced by nothing), then
  `strip()`. The scan is defined for any pair of tags; its properties hold
  for tags that start with `<` and contain no other `<`, as these two do.
 */
module Think {
  import opened Wrappers
  import opened Text

  const Open := "<think>"
  const Close := "</think>"

  /**
    One step of `re.sub` of the pattern `open.*?close` (DOTALL) by nothing,
    as the regular-expression engine performs it, at the cursor `pos`: if
    `open` starts there and some `close` starts after it, the shortest such
    match is dropped and the scan resumes after it; otherwise the character
    at the cursor is kept and the cursor moves on. The result is what the
    step keeps and where the scan resumes.
   */
  function StepFrom(s: string, pos: nat, open: string, close: string): (r: (string, nat))
    requires |open| > 0 && pos < |s|
    ensures pos < r.1 <= |s| && |r.0| <= 1
  {
    if OccursAt(s, open, pos) then
      match Find(s, close, pos + |open|)
      case Some(j) => ([], j + |close|)
      case None => ([s[pos]], pos + 1)
    else ([s[pos]], pos + 1)
  }

  /** The whole substitution, as the steps from the cursor `pos` to the end. */
  function ScanFrom(s: string, pos: nat, open: string, close: string): (r: string)
    requires |open| > 0 && pos <= |s|
    ensures |r| <= |s| - pos
    decreases |s| - pos
  {
    if pos == |s| then []
    else
      var step := StepFrom(s, pos, open, close);
      step.0 + ScanFrom(s, step.1, open, close)
  }

  /** `re.sub(r"<think>.*?</think>", "", s, flags=re.DOTALL)`. */
  function ThinkScan(s: string): (r: string)
    ensures |r| <= |s|
  {
    ScanFrom(s, 0, Open, Close)
  }

  /**
    Reference definition by spans: cut from the leftmost `open` through the
    first `close` after it, and repeat on the rest; an opening tag with no
    closing tag after it leaves the text as it is.
   */
  function Spans(s: string, open: string, close: string): (r: string)
    requires |open| > 0
    decreases |s|
  {
    match Find(s, open, 0)
    case None => s
    case Some(i) =>
      match Find(s, close, i + |open|)
      case None => s
      case Some(j) => s[..i] + Spans(s[j + |close|..], open, close)
  }

  /** `_clean_response(text)`. */
  function CleanResponse(text: string): (r: string)
    ensures Trimmed(r)
    ensures |r| <= |text|
  {
    Trim(ThinkScan(text))
  }

  // ----- Where the tags can occur -----

  /** A tag that starts with `<` and holds no other `<`. */
  predicate LtOnlyFirst(p: string) {
    |p| > 0 && p[0] == '<' && forall m :: 1 <= m < |p| ==> p[m] != '<'
  }

  predicate Tags(open: string, close: string) {
    LtOnlyFirst(open) && LtOnlyFirst(close)
  }

  lemma {:induction false} ThinkTags()
    ensures Tags(Open, Close)
  {
  }

  /** The character at `m` inside an occurrence of `p` at `k`. */
  lemma {:induction false} CharOfOccurrence(s: string, p: string, k: nat, m: nat)
    requires OccursAt(s, p, k) && k <= m < k + |p|
    ensures s[m] == p[m - k]
  {
    OccursAtSlice(s, p, k);
    assert s[k..k + |p|][m - k] == s[m];
  }

  lemma {:induction false} OccursWithin(s: string, p: string, lo: nat, hi: nat, k: nat)
    requires lo <= k && k + |p| <= hi <= |s| && OccursAt(s, p, k)
    ensures OccursAt(s[lo..hi], p, k - lo)
  {
    var u := s[lo..hi];
    OccursAtSlice(s, p, k);
    OccursAtSlice(u, p, k - lo);
    var x, y := u[k - lo..k - lo + |p|], s[k..k + |p|];
    forall t | 0 <= t < |p| ensures x[t] == y[t] {
      assert x[t] == u[k - lo + t] == s[k + t];
    }
    assert x == y;
  }

  /**
    An occurrence of such a tag cannot run into another such tag: one that
    starts before position `hi`, where a tag starts, lies before `hi`.
   */
  lemma {:induction false} NotAcrossTag(s: string, p: string, tag: string, lo: nat, hi: nat, k: nat)
    requires LtOnlyFirst(p) && LtOnlyFirst(tag)
    requires lo <= k < hi && OccursAt(s, tag, hi)
    requires !Contains(s[lo..hi], p)
    ensures !OccursAt(s, p, k)
  {
    if OccursAt(s, p, k) {
      if k + |p| <= hi {
        OccursWithin(s, p, lo, hi, k);
      } else {
        CharOfOccurrence(s, tag, hi, hi);
        CharOfOccurrence(s, p, k, hi);
      }
    }
  }

  /** Inside an opening tag at `i`, no closing tag can start after its first character. */
  lemma {:induction false} NoCloseInsideOpen(s: string, open: string, close: string, i: nat, k: nat)
    requires Tags(open, close)
    requires OccursAt(s, open, i) && i < k < i + |open|
    ensures !OccursAt(s, close, k)
  {
    if OccursAt(s, close, k) {
      CharOfOccurrence(s, close, k, k);
      CharOfOccurrence(s, open, i, k);
    }
  }

  // ----- Steps of the scan -----

  /** Up to the first opening tag at or after `pos`, the scan copies the text. */
  lemma {:induction false} ScanCopies(s: string, pos: nat, i: nat, open: string, close: string)
    requires |open| > 0
    requires pos <= i <= |s|
    requires Find(s, open, pos).None? || i <= Find(s, open, pos).value
    ensures ScanFrom(s, pos, open, close) == s[pos..i] + ScanFrom(s, i, open, close)
    decreases i - pos
  {
    if pos < i {
      assert !OccursAt(s, open, pos);
      ScanCopies(s, pos + 1, i, open, close);
      assert s[pos..i] == [s[pos]] + s[pos + 1..i];
    }
  }

  /** With no closing tag from `pos` on, a step keeps the character at `pos`. */
  lemma {:induction false} StepKeeps(s: string, pos: nat, open: string, close: string)
    requires |open| > 0
    requires pos < |s| && Find(s, close, pos).None?
    ensures StepFrom(s, pos, open, close) == ([s[pos]], pos + 1)
  {
    FindNoneLater(s, close, pos, pos + |open|);
  }

  /** With no closing tag from `pos` on, nothing matches and the scan keeps the rest of the text. */
  lemma {:induction false} ScanWithoutClose(s: string, pos: nat, open: string, close: string)
    requires |open| > 0
    requires pos <= |s| && Find(s, close, pos).None?
    ensures ScanFrom(s, pos, open, close) == s[pos..]
    decreases |s| - pos
  {
    if pos < |s| {
      StepKeeps(s, pos, open, close);
      FindNoneLater(s, close, pos, pos + 1);
      ScanWithoutClose(s, pos + 1, open, close);
      assert s[pos..] == [s[pos]] + s[pos + 1..];
    }
  }

  /** An opening tag at `i` that is never closed: the scan keeps everything from `i` on. */
  lemma {:induction false} ScanAtUnclosed(s: string, i: nat, open: string, close: string)
    requires Tags(open, close)
    requires OccursAt(s, open, i) && Find(s, close, i + |open|).None?
    ensures ScanFrom(s, i, open, close) == s[i..]
  {
    FindNone(s, close, i + |open|);
    forall k: nat | i + 1 <= k ensures !OccursAt(s, close, k) {
      if k < i + |open| { NoCloseInsideOpen(s, open, close, i, k); }
    }
    FindHit(s, close, i + 1);
    ScanWithoutClose(s, i + 1, open, close);
    assert s[i..] == [s[i]] + s[i + 1..];
  }

  /** A step inside `b` is the same step inside `a + b`, shifted by `|a|`. */
  lemma {:induction false} StepAppend(a: string, b: string, pos: nat, open: string, close: string)
    requires |open| > 0 && pos < |b|
    ensures StepFrom(a + b, |a| + pos, open, close) ==
      (StepFrom(b, pos, open, close).0, |a| + StepFrom(b, pos, open, close).1)
  {
    OccursAtAppend(a, b, open, pos);
    FindAppend(a, b, close, pos + |open|);
    assert (a + b)[|a| + pos] == b[pos];
  }

  /** Scanning `a + b` from inside `b` is scanning `b`: text already passed has no effect. */
  lemma {:induction false} ScanAppend(a: string, b: string, pos: nat, open: string, close: string)
    requires |open| > 0 && pos <= |b|
    ensures ScanFrom(a + b, |a| + pos, open, close) == ScanFrom(b, pos, open, close)
    decreases |b| - pos
  {
    if pos < |b| {
      var s := a + b;
      var step := StepFrom(b, pos, open, close);
      calc {
        ScanFrom(s, |a| + pos, open, close);
      == { StepAppend(a, b, pos, open, close); }
        step.0 + ScanFrom(s, |a| + step.1, open, close);
      == { ScanAppend(a, b, step.1, open, close); }
        step.0 + ScanFrom(b, step.1, open, close);
      ==
        ScanFrom(b, pos, open, close);
      }
    }
  }

  /** Resuming the scan at `q` is scanning the rest of the text afresh. */
  lemma {:induction false} ScanSuffix(s: string, q: nat, open: string, close: string)
    requires |open| > 0 && q <= |s|
    ensures ScanFrom(s, q, open, close) == ScanFrom(s[q..], 0, open, close)
  {
    assert s == s[..q] + s[q..];
    ScanAppend(s[..q], s[q..], 0, open, close);
  }

  // ----- The scan agrees with the spans -----

  /** No opening tag: the scan keeps the text. */
  lemma {:induction false} ScanNoOpen(s: string, open: string, close: string)
    requires |open| > 0 && Find(s, open, 0).None?
    ensures ScanFrom(s, 0, open, close) == s
  {
    ScanCopies(s, 0, |s|, open, close);
    assert s[0..|s|] == s;
  }

  /** The first opening tag is never closed: the scan keeps the text. */
  lemma {:induction false} ScanFirstUnclosed(s: string, i: nat, open: string, close: string)
    requires Tags(open, close)
    requires Find(s, open, 0) == Some(i) && Find(s, close, i + |open|).None?
    ensures ScanFrom(s, 0, open, close) == s
  {
    FindHit(s, open, 0);
    ScanCopies(s, 0, i, open, close);
    ScanAtUnclosed(s, i, open, close);
    assert s[0..i] + s[i..] == s;
  }

  /** An opening tag at `i` and the nearest closing tag after it, at `j`, are skipped together. */
  lemma {:induction false} ScanCut(s: string, i: nat, j: nat, open: string, close: string)
    requires |open| > 0
    requires OccursAt(s, open, i) && Find(s, close, i + |open|) == Some(j)
    ensures ScanFrom(s, i, open, close) == ScanFrom(s, j + |close|, open, close)
  {
    assert StepFrom(s, i, open, close) == ([], j + |close|);
  }

  /** The first opening tag at `i` and the nearest closing tag after it, at `j`, are cut. */
  lemma {:induction false} ScanFirstCut(s: string, i: nat, j: nat, open: string, close: string)
    requires |open| > 0
    requires Find(s, open, 0) == Some(i) && Find(s, close, i + |open|) == Some(j)
    ensures ScanFrom(s, 0, open, close) == s[..i] + ScanFrom(s[j + |close|..], 0, open, close)
  {
    var q := j + |close|;
    calc {
      ScanFrom(s, 0, open, close);
    == { ScanCopies(s, 0, i, open, close); }
      s[0..i] + ScanFrom(s, i, open, close);
    == { FindHit(s, open, 0); ScanCut(s, i, j, open, close); }
      s[0..i] + ScanFrom(s, q, open, close);
    == { ScanSuffix(s, q, open, close); }
      s[0..i] + ScanFrom(s[q..], 0, open, close);
    == { assert s[0..i] == s[..i]; }
      s[..i] + ScanFrom(s[q..], 0, open, close);
    }
  }

  lemma {:induction false} ScanIsSpans(s: string, open: string, close: string)
    requires Tags(open, close)
    ensures ScanFrom(s, 0, open, close) == Spans(s, open, close)
    decreases |s|
  {
    match Find(s, open, 0)
    case None =>
      ScanNoOpen(s, open, close);
    case Some(i) =>
      match Find(s, close, i + |open|)
      case Some(j) =>
        ScanFirstCut(s, i, j, open, close);
        ScanIsSpans(s[j + |close|..], open, close);
      case None =>
        ScanFirstUnclosed(s, i, open, close);
  }

  /** The engine's scan and the span definition give the same text. */
  lemma {:induction false} ScanMatchesSpans(s: string)
    ensures ThinkScan(s) == Spans(s, Open, Close)
  {
    ThinkTags();
    ScanIsSpans(s, Open, Close);
  }

  /**
    The leftmost opening tag and the nearest closing tag after it are
    deleted with everything between them; the text before is kept and the
    text after is scanned in turn.
   */
  lemma {:induction false} SpanDeletedBetween(pre: string, mid: string, post: string, open: string, close: string)
    requires Tags(open, close)
    requires !Contains(pre, open) && !Contains(mid, close)
    ensures ScanFrom(pre + open + mid + close + post, 0, open, close) == pre + ScanFrom(post, 0, open, close)
  {
    var s := pre + open + mid + close + post;
    var o := |pre|;
    var c := o + |open| + |mid|;
    FirstTagAt(s, pre, open, 0, o);
    FirstTagAt(s, mid, close, o + |open|, c);
    ScanFirstCut(s, o, c, open, close);
    assert s[..o] == pre && s[c + |close|..] == post;
  }

  /** A tag placed right after a stretch `u` of `s` without it is the first one from the stretch's start. */
  lemma {:induction false} FirstTagAt(s: string, u: string, p: string, lo: nat, hi: nat)
    requires LtOnlyFirst(p)
    requires lo + |u| == hi && hi + |p| <= |s| && s[lo..hi] == u && s[hi..hi + |p|] == p
    requires !Contains(u, p)
    ensures Find(s, p, lo) == Some(hi)
  {
    OccursAtSlice(s, p, hi);
    forall k: nat | lo <= k < hi ensures !OccursAt(s, p, k) {
      NotAcrossTag(s, p, p, lo, hi, k);
    }
    FindIs(s, p, lo, hi);
  }

  // ----- What the cleaning promises -----

  /** Text without `<think>` is only stripped. */
  lemma {:induction false} CleanWithoutThink(s: string)
    requires !Contains(s, Open)
    ensures CleanResponse(s) == Trim(s)
  {
    FindHit(s, Open, 0);
    ScanNoOpen(s, Open, Close);
  }

  /** Without any `</think>`, an opening `<think>` and all after it are kept; the text is only stripped. */
  lemma {:induction false} CleanKeepsUnclosed(s: string)
    requires !Contains(s, Close)
    ensures CleanResponse(s) == Trim(s)
  {
    FindHit(s, Close, 0);
    ScanWithoutClose(s, 0, Open, Close);
  }

  /**
    The leftmost `<think>` and the nearest `</think>` after it are deleted
    with everything between them (newlines included); the text before is kept
    and the text after is cleaned in turn.
   */
  lemma {:induction false} SpanDeleted(pre: string, mid: string, post: string)
    requires !Contains(pre, Open) && !Contains(mid, Close)
    ensures ThinkScan(pre + Open + mid + Close + post) == pre + ThinkScan(post)
  {
    ThinkTags();
    SpanDeletedBetween(pre, mid, post, Open, Close);
  }

  /** A think span on its own is deleted entirely. */
  lemma {:induction false} SpanAlone(mid: string)
    requires !Contains(mid, Close)
    ensures ThinkScan(Open + mid + Close) == []
  {
    var e: string := [];
    SpanDeleted(e, mid, e);
    assert e + Open + mid + Close + e == Open + mid + Close;
  }

  /** A think span starts with `<` and ends with `>`, so `strip()` leaves it alone. */
  lemma {:induction false} SpanTrimmed(mid: string)
    ensures Trim(Open + mid + Close) == Open + mid + Close
  {
    var x := Open + mid + Close;
    var e: string := [];
    assert x[0] == '<' && x[|x| - 1] == '>';
    assert e + x + e == x;
    TrimOfPadded(e, x, e);
  }
}
