/**
  String helpers with Python's meaning: `str.strip()` (removing every character
  for which `str.isspace()` holds), `str.startswith` and the substring test
  `p in s`.
 */
module Text {
  import opened Wrappers

  /** Python's `str.isspace()` on one character: the characters `strip()` removes. */
  predicate IsSpace(c: char) {
    || ('\t' <= c <= '\r')
    || ('\U{1C}' <= c <= '\U{1F}')
    || c == ' '
    || c == '\U{85}'
    || c == '\U{A0}'
    || c == '\U{1680}'
    || ('\U{2000}' <= c <= '\U{200A}')
    || c == '\U{2028}'
    || c == '\U{2029}'
    || c == '\U{202F}'
    || c == '\U{205F}'
    || c == '\U{3000}'
  }

  predicate AllSpace(s: string) {
    forall i :: 0 <= i < |s| ==> IsSpace(s[i])
  }

  /** No whitespace at either end: what `strip()` returns. */
  predicate Trimmed(s: string) {
    s == [] || (!IsSpace(s[0]) && !IsSpace(s[|s| - 1]))
  }

  /** `s.lstrip()`: the suffix of `s` left after dropping its leading whitespace. */
  function TrimStart(s: string): (r: string)
    ensures |r| <= |s|
    ensures r == [] || !IsSpace(r[0])
    ensures r != [] ==> r[|r| - 1] == s[|s| - 1]
  {
    if |s| > 0 && IsSpace(s[0]) then TrimStart(s[1..]) else s
  }

  /** `s.rstrip()`: the prefix of `s` left after dropping its trailing whitespace. */
  function TrimEnd(s: string): (r: string)
    ensures |r| <= |s|
    ensures r == [] || !IsSpace(r[|r| - 1])
    ensures r != [] ==> r[0] == s[0]
  {
    if |s| > 0 && IsSpace(s[|s| - 1]) then TrimEnd(s[..|s| - 1]) else s
  }

  /** `s.strip()`. */
  function Trim(s: string): (r: string)
    ensures Trimmed(r)
    ensures |r| <= |s|
  {
    TrimEnd(TrimStart(s))
  }

  /** `lstrip()` keeps a suffix. */
  lemma {:induction false} TrimStartSuffix(s: string)
    ensures TrimStart(s) == s[|s| - |TrimStart(s)|..]
    decreases |s|
  {
    if |s| > 0 && IsSpace(s[0]) {
      TrimStartSuffix(s[1..]);
      assert s[1..][|s| - 1 - |TrimStart(s)|..] == s[|s| - |TrimStart(s)|..];
    }
  }

  /** `rstrip()` keeps a prefix. */
  lemma {:induction false} TrimEndPrefix(s: string)
    ensures TrimEnd(s) == s[..|TrimEnd(s)|]
    decreases |s|
  {
    if |s| > 0 && IsSpace(s[|s| - 1]) {
      TrimEndPrefix(s[..|s| - 1]);
      assert s[..|s| - 1][..|TrimEnd(s)|] == s[..|TrimEnd(s)|];
    }
  }

  /** What `lstrip()` drops is whitespace. */
  lemma {:induction false} TrimStartDropsSpace(s: string)
    ensures AllSpace(s[..|s| - |TrimStart(s)|])
    decreases |s|
  {
    if |s| > 0 && IsSpace(s[0]) {
      TrimStartDropsSpace(s[1..]);
      var k := |s| - |TrimStart(s)|;
      forall i | 0 <= i < k ensures IsSpace(s[..k][i]) {
        if i > 0 { assert s[..k][i] == s[1..][..k - 1][i - 1]; }
      }
    }
  }

  /** What `rstrip()` drops is whitespace. */
  lemma {:induction false} TrimEndDropsSpace(s: string)
    ensures AllSpace(s[|TrimEnd(s)|..])
    decreases |s|
  {
    if |s| > 0 && IsSpace(s[|s| - 1]) {
      var init := s[..|s| - 1];
      TrimEndDropsSpace(init);
      var k := |TrimEnd(s)|;
      forall i | 0 <= i < |s| - k ensures IsSpace(s[k..][i]) {
        if k + i < |s| - 1 { assert s[k..][i] == init[k..][i]; }
      }
    }
  }

  /** Stripping is determined by the padding: whitespace around a trimmed core is exactly what goes. */
  lemma {:induction false} TrimOfPadded(lead: string, core: string, trail: string)
    requires AllSpace(lead) && AllSpace(trail) && Trimmed(core)
    ensures Trim(lead + core + trail) == core
  {
    if core == [] {
      assert lead + core + trail == lead + trail;
      TrimStartPadded(lead + trail, []);
      assert lead + trail + [] == lead + trail;
    } else {
      assert lead + core + trail == lead + (core + trail);
      TrimStartPadded(lead, core + trail);
      TrimEndPadded(core, trail);
    }
  }

  lemma {:induction false} TrimStartPadded(lead: string, rest: string)
    requires AllSpace(lead) && (rest == [] || !IsSpace(rest[0]))
    ensures TrimStart(lead + rest) == rest
  {
    if lead != [] {
      assert (lead + rest)[1..] == lead[1..] + rest;
      TrimStartPadded(lead[1..], rest);
    }
  }

  lemma {:induction false} TrimEndPadded(rest: string, trail: string)
    requires AllSpace(trail) && (rest == [] || !IsSpace(rest[|rest| - 1]))
    ensures TrimEnd(rest + trail) == rest
  {
    if trail == [] {
      assert rest + trail == rest;
    } else {
      var t := trail[..|trail| - 1];
      assert (rest + trail)[..|rest + trail| - 1] == rest + t;
      TrimEndPadded(rest, t);
    }
  }

  /** Stripping twice is stripping once. */
  lemma {:induction false} TrimIdempotent(s: string)
    ensures Trim(Trim(s)) == Trim(s)
  {
    TrimOfPadded([], Trim(s), []);
    assert [] + Trim(s) + [] == Trim(s);
  }

  /** `p` occurs in `s` starting at index `k`. */
  predicate OccursAt(s: string, p: string, k: nat)
    ensures OccursAt(s, p, k) ==> k + |p| <= |s|
    decreases |p|
  {
    if p == [] then k <= |s| else k < |s| && s[k] == p[0] && OccursAt(s, p[1..], k + 1)
  }

  /** An occurrence is a slice of `s` equal to `p`. */
  lemma {:induction false} OccursAtSlice(s: string, p: string, k: nat)
    ensures OccursAt(s, p, k) <==> k + |p| <= |s| && s[k..k + |p|] == p
    decreases |p|
  {
    if p != [] && k + |p| <= |s| {
      OccursAtSlice(s, p[1..], k + 1);
      assert s[k..k + |p|] == [s[k]] + s[k + 1..k + |p|];
      assert p == [p[0]] + p[1..];
    }
  }

  /** `OccursAtSlice` at every position. */
  lemma {:induction false} OccursAtSliceAll(s: string, p: string)
    ensures forall k: nat :: OccursAt(s, p, k) <==> k + |p| <= |s| && s[k..][..|p|] == p
  {
    forall k: nat ensures OccursAt(s, p, k) <==> k + |p| <= |s| && s[k..][..|p|] == p {
      OccursAtSlice(s, p, k);
      if k + |p| <= |s| {
        assert s[k..][..|p|] == s[k..k + |p|];
      }
    }
  }

  /** Python's `s.startswith(p)`: `s` begins with the characters of `p`. */
  predicate StartsWith(s: string, p: string)
    ensures StartsWith(s, p) <==> |p| <= |s| && s[..|p|] == p
  {
    OccursAtSlice(s, p, 0);
    assert |p| <= |s| ==> s[0..|p|] == s[..|p|];
    OccursAt(s, p, 0)
  }

  /** Python's substring test `p in s`: `p` is some slice of `s`. */
  predicate Contains(s: string, p: string)
    ensures Contains(s, p) <==> exists k: nat :: k + |p| <= |s| && s[k..][..|p|] == p
  {
    OccursAtSliceAll(s, p);
    exists k: nat | k <= |s| :: OccursAt(s, p, k)
  }

  lemma {:induction false} OccursAtShift(s: string, p: string, k: nat)
    requires |s| > 0
    ensures OccursAt(s, p, k + 1) <==> OccursAt(s[1..], p, k)
  {
    OccursAtSlice(s, p, k + 1);
    OccursAtSlice(s[1..], p, k);
    if k + 1 + |p| <= |s| {
      assert s[1..][k..k + |p|] == s[k + 1..k + 1 + |p|];
    }
  }

  /** An occurrence in `b` is an occurrence in `a + b`, |a| further on, and back. */
  lemma {:induction false} OccursAtAppend(a: string, b: string, p: string, k: nat)
    ensures OccursAt(a + b, p, |a| + k) <==> OccursAt(b, p, k)
  {
    OccursAtSlice(a + b, p, |a| + k);
    OccursAtSlice(b, p, k);
    if k + |p| <= |b| {
      assert (a + b)[|a| + k..|a| + k + |p|] == b[k..k + |p|];
    }
  }

  /** Python's `s.find(p, start)`: the leftmost occurrence of `p` at or after `start`, None for -1. */
  function Find(s: string, p: string, start: nat): (r: Option<nat>)
    ensures r.Some? ==> start <= r.value && r.value + |p| <= |s|
    decreases |s| - start
  {
    if start + |p| > |s| then None
    else if OccursAt(s, p, start) then Some(start)
    else Find(s, p, start + 1)
  }

  /** What Find reports is an occurrence. */
  lemma {:induction false} FindHit(s: string, p: string, start: nat)
    ensures Find(s, p, start).Some? ==> OccursAt(s, p, Find(s, p, start).value)
    decreases |s| - start
  {
    if start + |p| <= |s| && !OccursAt(s, p, start) {
      FindHit(s, p, start + 1);
    }
  }

  /** No occurrence lies between `start` and what Find reports. */
  lemma {:induction false} FindFirst(s: string, p: string, start: nat)
    ensures Find(s, p, start).Some? ==>
      forall k: nat :: start <= k < Find(s, p, start).value ==> !OccursAt(s, p, k)
    decreases |s| - start
  {
    if start + |p| <= |s| && !OccursAt(s, p, start) {
      FindFirst(s, p, start + 1);
    }
  }

  /** Find reports None only when there is no occurrence at or after `start`. */
  lemma {:induction false} FindNone(s: string, p: string, start: nat)
    ensures Find(s, p, start).None? ==> forall k: nat :: start <= k ==> !OccursAt(s, p, k)
    decreases |s| - start
  {
    if start + |p| <= |s| && !OccursAt(s, p, start) {
      FindNone(s, p, start + 1);
    }
  }

  /** The leftmost occurrence at or after `start` is the one Find reports. */
  lemma {:induction false} FindIs(s: string, p: string, start: nat, i: nat)
    requires start <= i && OccursAt(s, p, i)
    requires forall k: nat :: start <= k < i ==> !OccursAt(s, p, k)
    ensures Find(s, p, start) == Some(i)
  {
    FindHit(s, p, start);
    FindFirst(s, p, start);
    FindNone(s, p, start);
  }

  /** With no occurrence from `a` on, there is none from any later `b` either. */
  lemma {:induction false} FindNoneLater(s: string, p: string, a: nat, b: nat)
    requires a <= b && Find(s, p, a).None?
    ensures Find(s, p, b).None?
    decreases b - a
  {
    if a < b {
      FindNoneLater(s, p, a + 1, b);
    }
  }

  /** Searching `a + b` from inside `b` is searching `b`, shifted by |a|. */
  lemma {:induction false} FindAppend(a: string, b: string, p: string, start: nat)
    ensures Find(a + b, p, |a| + start) ==
      (match Find(b, p, start) case Some(j) => Some(|a| + j) case None => None)
    decreases |b| - start
  {
    OccursAtAppend(a, b, p, start);
    if start + |p| <= |b| && !OccursAt(b, p, start) {
      FindAppend(a, b, p, start + 1);
    }
  }
}
