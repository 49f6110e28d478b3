/** The parts of Go's strings package the tool leans on: Contains, Cut,
    TrimSpace, Fields and Join. */
module Strings {

  // ----- substring search -----

  predicate OccursAt(s: string, pat: string, k: int) {
    0 <= k && k + |pat| <= |s| && s[k..k + |pat|] == pat
  }

  predicate Contains(s: string, pat: string) {
    exists k | 0 <= k <= |s| :: OccursAt(s, pat, k)
  }

  /** strings.Cut: split around the first occurrence. */
  datatype CutResult = Found(before: string, after: string) | NotFound

  function CutFrom(s: string, sep: string, from: nat): (r: CutResult)
    requires from <= |s|
    ensures r.Found? ==>
      && from <= |r.before|
      && OccursAt(s, sep, |r.before|)
      && s == r.before + sep + r.after
      && forall k :: from <= k < |r.before| ==> !OccursAt(s, sep, k)
    ensures r.NotFound? ==> forall k :: from <= k ==> !OccursAt(s, sep, k)
    decreases |s| - from
  {
    if OccursAt(s, sep, from) then Found(s[..from], s[from + |sep|..])
    else if from == |s| then NotFound
    else CutFrom(s, sep, from + 1)
  }

  function Cut(s: string, sep: string): (r: CutResult)
    ensures r.Found? <==> Contains(s, sep)
    ensures r.Found? ==> s == r.before + sep + r.after
  {
    CutFrom(s, sep, 0)
  }

  /** The first occurrence is unique, so any first split is the one Cut makes. */
  lemma {:induction false} CutIsFirst(before: string, sep: string, after: string)
    requires forall k :: 0 <= k < |before| ==> !OccursAt(before + sep + after, sep, k)
    ensures Cut(before + sep + after, sep) == Found(before, after)
  {
    var s := before + sep + after;
    assert s[|before|..|before| + |sep|] == sep;
    assert OccursAt(s, sep, |before|);
    var r := Cut(s, sep);
    assert |r.before| == |before|;
    assert s[..|before|] == before && s[|before| + |sep|..] == after;
    assert (r.before + sep + r.after)[..|before|] == r.before;
    assert (r.before + sep + r.after)[|before| + |sep|..] == r.after;
  }

  /** No proper non-empty prefix of `pat` is also a suffix of it. */
  predicate Borderless(pat: string) {
    forall m | 0 < m < |pat| :: pat[|pat| - m..] != pat[..m]
  }

  /** An occurrence that starts inside `noise` lies inside it, or its end is
      also a beginning of the separator that follows. */
  lemma {:induction false} EarlyOccurrence(noise: string, sep: string, rest: string, k: nat)
    requires k < |noise| && OccursAt(noise + sep + rest, sep, k)
    ensures
      || OccursAt(noise, sep, k)
      || (exists m :: 0 < m < |sep| && sep[|sep| - m..] == sep[..m])
  {
    var s := noise + sep + rest;
    if k + |sep| <= |noise| {
      assert noise[k..k + |sep|] == s[k..k + |sep|];
    } else {
      var m := k + |sep| - |noise|;
      assert sep[|sep| - m..] == s[k..k + |sep|][|sep| - m..] == s[|noise|..|noise| + m] == sep[..m];
    }
  }

  /** A borderless separator cannot be completed across the end of text that
      does not contain it, whatever follows. */
  lemma {:induction false} BorderlessCut(noise: string, sep: string, rest: string)
    requires Borderless(sep)
    requires !Contains(noise, sep)
    ensures Cut(noise + sep + rest, sep) == Found(noise, rest)
  {
    forall k: nat | k < |noise| && OccursAt(noise + sep + rest, sep, k)
      ensures OccursAt(noise, sep, k)
    {
      EarlyOccurrence(noise, sep, rest, k);
    }
    CutIsFirst(noise, sep, rest);
  }

  // ----- white space -----

  /** unicode.IsSpace. */
  predicate IsSpace(c: char) {
    || '\t' <= c <= '\r' || c == ' ' || c == '\U{85}' || c == '\U{A0}'
    || c == '\U{1680}' || '\U{2000}' <= c <= '\U{200A}' || c == '\U{2028}' || c == '\U{2029}'
    || c == '\U{202F}' || c == '\U{205F}' || c == '\U{3000}'
  }

  predicate AllSpace(s: string) {
    forall k :: 0 <= k < |s| ==> IsSpace(s[k])
  }

  predicate NoSpace(s: string) {
    forall k :: 0 <= k < |s| ==> !IsSpace(s[k])
  }

  function TrimLeft(s: string): string {
    if s != "" && IsSpace(s[0]) then TrimLeft(s[1..]) else s
  }

  function TrimRight(s: string): string {
    if s != "" && IsSpace(s[|s| - 1]) then TrimRight(s[..|s| - 1]) else s
  }

  function TrimSpace(s: string): string {
    TrimRight(TrimLeft(s))
  }

  /** Text that starts and ends with something visible. */
  predicate Tight(s: string) {
    s != "" && !IsSpace(s[0]) && !IsSpace(s[|s| - 1])
  }

  lemma {:induction false} TrimLeftDrops(lead: string, s: string)
    requires AllSpace(lead)
    ensures TrimLeft(lead + s) == TrimLeft(s)
  {
    if lead == "" {
      assert lead + s == s;
    } else {
      assert (lead + s)[1..] == lead[1..] + s;
      TrimLeftDrops(lead[1..], s);
    }
  }

  lemma {:induction false} TrimRightDrops(s: string, trail: string)
    requires AllSpace(trail)
    ensures TrimRight(s + trail) == TrimRight(s)
  {
    if trail == "" {
      assert s + trail == s;
    } else {
      var t := s + trail;
      assert t[..|t| - 1] == s + trail[..|trail| - 1];
      assert t[|t| - 1] == trail[|trail| - 1];
      TrimRightDrops(s, trail[..|trail| - 1]);
    }
  }

  /** TrimSpace removes surrounding white space and nothing else. */
  lemma {:induction false} TrimSpaceExact(lead: string, s: string, trail: string)
    requires AllSpace(lead) && Tight(s) && AllSpace(trail)
    ensures TrimSpace(lead + s + trail) == s
  {
    assert lead + s + trail == lead + (s + trail);
    TrimLeftDrops(lead, s + trail);
    assert TrimLeft(s + trail) == s + trail;
    TrimRightDrops(s, trail);
  }

  // ----- words -----

  /** Length of the leading run of non-space characters. */
  function WordLen(s: string): (n: nat)
    ensures n <= |s| && NoSpace(s[..n])
    ensures n < |s| ==> IsSpace(s[n])
  {
    if s == "" || IsSpace(s[0]) then 0
    else
      var n := 1 + WordLen(s[1..]);
      assert s[..n] == [s[0]] + s[1..][..n - 1];
      n
  }

  /** strings.Fields. */
  function Fields(s: string): (words: seq<string>)
    decreases |s|
  {
    if s == "" then []
    else if IsSpace(s[0]) then Fields(s[1..])
    else var n := WordLen(s); [s[..n]] + Fields(s[n..])
  }

  lemma {:induction false} WordLenAt(w: string, rest: string)
    requires NoSpace(w)
    requires rest != "" ==> IsSpace(rest[0])
    ensures WordLen(w + rest) == |w|
  {
    if w == "" {
      assert w + rest == rest;
    } else {
      assert (w + rest)[1..] == w[1..] + rest;
      WordLenAt(w[1..], rest);
    }
  }

  /** Splitting at a white space character splits the words. */
  lemma {:induction false} FieldsSplit(a: string, b: string)
    requires b != "" ==> IsSpace(b[0])
    ensures Fields(a + b) == Fields(a) + Fields(b)
    decreases |a|
  {
    hide WordLen, NoSpace, IsSpace;
    if a == "" {
      assert a + b == b;
    } else if IsSpace(a[0]) {
      assert (a + b)[1..] == a[1..] + b;
      FieldsSplit(a[1..], b);
    } else {
      var n := WordLen(a);
      var w := a[..n];
      assert a + b == w + (a[n..] + b);
      if n == |a| {
        assert a[n..] + b == b;
      }
      WordLenAt(w, a[n..] + b);
      assert (a + b)[n..] == a[n..] + b;
      assert (a + b)[..n] == w;
      FieldsSplit(a[n..], b);
    }
  }

  /** Appending a space and a word appends that word. */
  lemma {:induction false} FieldsAppend(a: string, w: string)
    requires w != "" && NoSpace(w)
    ensures Fields(a + " " + w) == Fields(a) + [w]
  {
    assert a + " " + w == a + (" " + w);
    FieldsSplit(a, " " + w);
    assert (" " + w)[1..] == w;
    assert w + "" == w;
    WordLenAt(w, "");
    assert w[..|w|] == w;
    assert Fields(w) == [w] + Fields(w[|w|..]);
  }

  lemma {:induction false} FieldsOfSpace(s: string)
    requires AllSpace(s)
    ensures Fields(s) == []
  {
    if s != "" {
      FieldsOfSpace(s[1..]);
    }
  }

  lemma {:induction false} FieldsTrimLeft(s: string)
    ensures Fields(TrimLeft(s)) == Fields(s)
  {
    if s != "" && IsSpace(s[0]) {
      FieldsTrimLeft(s[1..]);
    }
  }

  lemma {:induction false} FieldsTrimRight(s: string)
    ensures Fields(TrimRight(s)) == Fields(s)
  {
    if s != "" && IsSpace(s[|s| - 1]) {
      var front, last := s[..|s| - 1], s[|s| - 1..];
      FieldsTrimRight(front);
      assert s == front + last;
      FieldsSplit(front, last);
      FieldsOfSpace(last);
    }
  }

  /** Trimming never changes the words of a line. */
  lemma {:induction false} FieldsTrimSpace(s: string)
    ensures Fields(TrimSpace(s)) == Fields(s)
  {
    FieldsTrimLeft(s);
    FieldsTrimRight(TrimLeft(s));
  }

  // ----- joined lines -----

  /** strings.Join(lines, "\n"). */
  function JoinLines(lines: seq<string>): string {
    if lines == [] then ""
    else if |lines| == 1 then lines[0]
    else lines[0] + "\n" + JoinLines(lines[1..])
  }

  predicate OneLine(s: string) {
    '\n' !in s
  }

  /** An occurrence around a line break lies before it, after it, or holds it. */
  lemma {:induction false} OccurrenceAtBreak(a: string, b: string, pat: string, k: nat)
    requires OccursAt(a + "\n" + b, pat, k) && pat != ""
    ensures OccursAt(a, pat, k) || OccursAt(b, pat, k - |a| - 1) || '\n' in pat
  {
    var s := a + "\n" + b;
    if k + |pat| <= |a| {
      assert a[k..k + |pat|] == s[k..k + |pat|];
    } else if k <= |a| {
      assert s[|a|] == '\n' && s[k..k + |pat|][|a| - k] == '\n';
    } else {
      var j := k - |a| - 1;
      assert b[j..j + |pat|] == s[k..k + |pat|];
    }
  }

  /** A pattern without a newline cannot straddle one. */
  lemma {:induction false} ContainsAcrossNewline(a: string, b: string, pat: string)
    requires OneLine(pat) && pat != ""
    ensures Contains(a + "\n" + b, pat) <==> Contains(a, pat) || Contains(b, pat)
  {
    var s := a + "\n" + b;
    if k :| 0 <= k <= |s| && OccursAt(s, pat, k) {
      OccurrenceAtBreak(a, b, pat, k);
    }
    if k :| 0 <= k <= |a| && OccursAt(a, pat, k) {
      assert s[k..k + |pat|] == a[k..k + |pat|];
      assert OccursAt(s, pat, k);
    }
    if k :| 0 <= k <= |b| && OccursAt(b, pat, k) {
      var j := k + |a| + 1;
      assert s[j..j + |pat|] == b[k..k + |pat|];
      assert OccursAt(s, pat, j);
    }
  }

  /** Searching the joined text is searching the lines, for patterns that fit
      on one line. */
  lemma {:induction false} ContainsInJoin(lines: seq<string>, pat: string)
    requires OneLine(pat) && pat != ""
    ensures Contains(JoinLines(lines), pat) <==> exists k :: 0 <= k < |lines| && Contains(lines[k], pat)
  {
    if lines == [] {
    } else if |lines| == 1 {
      assert Contains(lines[0], pat) ==> exists k :: 0 <= k < |lines| && Contains(lines[k], pat);
    } else {
      var rest := lines[1..];
      ContainsAcrossNewline(lines[0], JoinLines(rest), pat);
      ContainsInJoin(rest, pat);
      assert forall k :: 0 <= k < |rest| ==> rest[k] == lines[k + 1];
      if k :| 0 <= k < |lines| && Contains(lines[k], pat) && k > 0 {
        assert Contains(rest[k - 1], pat);
      }
    }
  }
}
