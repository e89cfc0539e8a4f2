/** The part of Python's `re` module the redactor uses: `findall` (through the
    number of matches it returns) and `sub` with a literal replacement. The
    regular-expression language itself is left abstract: an `Engine` says, for
    a pattern and a text, where a match starts and how long it is, and whether
    evaluating the pattern on that text raises an exception. */
module Patterns {
  import opened Wrappers

  /** The source text of one regular expression, exactly as the catalog writes it. */
  type Regex = string

  /** `matchAt(p, s, i)` is the length of the match of `p` that a left-to-right
      search of `s` finds when it tries position `i` (0: no match starts at `i`);
      the whole of `s` is passed so that look-behind such as `\b` can see the
      character before `i`. `raises(p, s)` is the message of the exception that
      evaluating `p` over `s` raises, if it raises one. */
  datatype Engine = Engine(matchAt: (Regex, string, nat) -> nat, raises: (Regex, string) -> Option<string>)

  /** A match occupying `s[start..end]`. */
  datatype Span = Span(start: nat, end: nat)

  /** The spans are non-empty, lie within `[lo, n)`, and each one starts at or
      after the end of the previous one: left to right and non-overlapping. */
  predicate Ordered(spans: seq<Span>, lo: nat, n: nat)
    decreases |spans|
  {
    spans == [] ||
    (lo <= spans[0].start < spans[0].end <= n && Ordered(spans[1..], spans[0].end, n))
  }

  /** The matches a search of `s` finds from position `i` on: where a match is
      found the search resumes at its end, otherwise one character further on.
      A reported length that runs past the end of `s` is not a match. */
  function SpansFrom(e: Engine, p: Regex, s: string, i: nat): (r: seq<Span>)
    requires i <= |s|
    ensures Ordered(r, i, |s|)
    ensures forall k :: 0 <= k < |r| ==> e.matchAt(p, s, r[k].start) == r[k].end - r[k].start
    decreases |s| - i
  {
    if i == |s| then []
    else
      var n := e.matchAt(p, s, i);
      if 0 < n <= |s| - i then [Span(i, i + n)] + SpansFrom(e, p, s, i + n)
      else SpansFrom(e, p, s, i + 1)
  }

  /** Position `j` lies inside one of the spans. */
  predicate Covers(spans: seq<Span>, j: nat) {
    exists k :: 0 <= k < |spans| && spans[k].start <= j < spans[k].end
  }

  /** The search skips no match: wherever the engine reports a match inside
      the text, from position `i` on, that position lies inside one of the
      spans found (the match itself, or an earlier one that overlaps it). */
  lemma {:induction false} SpansFromComplete(e: Engine, p: Regex, s: string, i: nat, j: nat)
    requires i <= j < |s| && 0 < e.matchAt(p, s, j) <= |s| - j
    ensures Covers(SpansFrom(e, p, s, i), j)
    decreases |s| - i
  {
    var r := SpansFrom(e, p, s, i);
    var n := e.matchAt(p, s, i);
    if 0 < n <= |s| - i {
      var rest := SpansFrom(e, p, s, i + n);
      assert r == [Span(i, i + n)] + rest;
      if j < i + n {
        assert r[0].start <= j < r[0].end;
        assert Covers(r, j);
      } else {
        SpansFromComplete(e, p, s, i + n, j);
        var k :| 0 <= k < |rest| && rest[k].start <= j < rest[k].end;
        assert r[k + 1] == rest[k];
        assert Covers(r, j);
      }
    } else {
      assert i != j;
      SpansFromComplete(e, p, s, i + 1, j);
      assert r == SpansFrom(e, p, s, i + 1);
    }
  }

  /** The non-overlapping matches of `p` in `s`, left to right. */
  function Spans(e: Engine, p: Regex, s: string): seq<Span> {
    SpansFrom(e, p, s, 0)
  }

  /** `len(re.findall(p, s))`. */
  function Count(e: Engine, p: Regex, s: string): nat {
    |Spans(e, p, s)|
  }

  /** `findall` finds something whenever the engine reports a match that fits
      in the text: such text is never counted as clean. */
  lemma MatchIsCounted(e: Engine, p: Regex, s: string, j: nat)
    requires j < |s| && 0 < e.matchAt(p, s, j) <= |s| - j
    ensures Count(e, p, s) > 0
    ensures Covers(Spans(e, p, s), j)
  {
    SpansFromComplete(e, p, s, 0, j);
  }

  /** `s[lo..]` with every span replaced by `r`. */
  function Splice(s: string, spans: seq<Span>, r: string, lo: nat): string
    requires lo <= |s| && Ordered(spans, lo, |s|)
    decreases |spans|
  {
    if spans == [] then s[lo..]
    else s[lo..spans[0].start] + r + Splice(s, spans[1..], r, spans[0].end)
  }

  /** `re.sub(p, r, s)` for a replacement `r` without escapes: every match of
      `p` in `s` replaced by `r`. Where nothing matches, `s` comes back as it was. */
  function Sub(e: Engine, p: Regex, r: string, s: string): (t: string)
    ensures Count(e, p, s) == 0 ==> t == s
  {
    Splice(s, Spans(e, p, s), r, 0)
  }

  /** The number of characters the spans cover. */
  function Covered(spans: seq<Span>): int
    decreases |spans|
  {
    if spans == [] then 0 else spans[0].end - spans[0].start + Covered(spans[1..])
  }

  lemma {:induction false} SpliceLength(s: string, spans: seq<Span>, r: string, lo: nat)
    requires lo <= |s| && Ordered(spans, lo, |s|)
    ensures Covered(spans) <= |s| - lo
    ensures |Splice(s, spans, r, lo)| == |s| - lo - Covered(spans) + |spans| * |r|
    decreases |spans|
  {
    if spans != [] {
      SpliceLength(s, spans[1..], r, spans[0].end);
    }
  }

  /** Substitution removes exactly the matched characters and inserts one copy
      of the replacement per match. */
  lemma SubLength(e: Engine, p: Regex, r: string, s: string)
    ensures Covered(Spans(e, p, s)) <= |s|
    ensures |Sub(e, p, r, s)| == |s| - Covered(Spans(e, p, s)) + Count(e, p, s) * |r|
  {
    SpliceLength(s, Spans(e, p, s), r, 0);
  }

  /** When there is a match, the replacement stands where the first match
      started, and the text before it is kept. */
  lemma SubPlacesReplacement(e: Engine, p: Regex, r: string, s: string)
    requires Count(e, p, s) > 0
    ensures var st := Spans(e, p, s)[0].start;
      var t := Sub(e, p, r, s);
      st + |r| <= |t| && t[..st] == s[..st] && t[st..st + |r|] == r
  {
    var spans := Spans(e, p, s);
    var st := spans[0].start;
    var rest := Splice(s, spans[1..], r, spans[0].end);
    assert Sub(e, p, r, s) == s[0..st] + r + rest;
    assert (s[0..st] + r + rest)[..st] == s[..st];
    assert (s[0..st] + r + rest)[st..st + |r|] == r;
  }
}
