/** What the document totals are: per key, the sum of that key's counts over
    the pages that were redacted, and nothing else. */
module DocumentProperties {
  import opened Wrappers
  import opened Patterns
  import opened Catalog
  import opened Redactor
  import opened RedactorProperties
  import opened Document

  /** The sum of the counts of `k` over the redacted pages of `pages`. */
  function KeySum(pages: seq<PageResult>, k: string): nat
    decreases |pages|
  {
    if pages == [] then 0
    else
      var last := pages[|pages| - 1];
      KeySum(pages[..|pages| - 1], k) + (if last.redacted then Get(last.stats, k) else 0)
  }

  /** Some redacted page has a count for `k`. */
  predicate SeenIn(pages: seq<PageResult>, k: string) {
    exists i :: 0 <= i < |pages| && pages[i].redacted && k in pages[i].stats
  }

  /** For every key, the total is the sum of that key over the redacted pages,
      and a key appears in the totals exactly when some redacted page has it. */
  lemma {:induction false} TotalsAreSums(pages: seq<PageResult>)
    ensures forall k :: k in Totals(pages) <==> SeenIn(pages, k)
    ensures forall k :: Get(Totals(pages), k) == KeySum(pages, k)
    decreases |pages|
  {
    if pages != [] {
      var n := |pages| - 1;
      var init := pages[..n];
      var last := pages[n];
      TotalsAreSums(init);
      forall k ensures k in Totals(pages) <==> SeenIn(pages, k) {
        if SeenIn(init, k) {
          var i :| 0 <= i < |init| && init[i].redacted && k in init[i].stats;
          assert pages[i] == init[i];
        }
        if SeenIn(pages, k) && !(last.redacted && k in last.stats) {
          var i :| 0 <= i < |pages| && pages[i].redacted && k in pages[i].stats;
          assert i < n && init[i] == pages[i];
        }
        if last.redacted && k in last.stats {
          assert pages[n] == last;
        }
      }
    }
  }

  /** If no page was redacted, `total_redactions` is the empty map. */
  lemma NoRedactedPageNoTotals(pages: seq<PageResult>)
    requires forall i :: 0 <= i < |pages| ==> !pages[i].redacted
    ensures Totals(pages) == map[]
  {
    TotalsAreSums(pages);
    forall k ensures k !in Totals(pages) {
      assert !SeenIn(pages, k);
    }
  }

  lemma {:induction false} KeySumAppend(a: seq<PageResult>, b: seq<PageResult>, k: string)
    ensures KeySum(a + b, k) == KeySum(a, k) + KeySum(b, k)
    decreases |b|
  {
    if b == [] {
      assert a + b == a;
    } else {
      var n := |b| - 1;
      assert (a + b)[..|a + b| - 1] == a + b[..n];
      KeySumAppend(a, b[..n], k);
    }
  }

  lemma DropUnredactedKeySum(pages: seq<PageResult>, i: nat, k: string)
    requires i < |pages| && !pages[i].redacted
    ensures KeySum(pages, k) == KeySum(pages[..i] + pages[i + 1..], k)
  {
    var front, back := pages[..i], pages[i + 1..];
    assert pages == (front + [pages[i]]) + back;
    KeySumAppend(front + [pages[i]], back, k);
    KeySumAppend(front, [pages[i]], k);
    KeySumAppend(front, back, k);
    assert KeySum([pages[i]], k) == 0 by {
      assert [pages[i]][..0] == [];
    }
  }

  lemma DropUnredactedSeen(pages: seq<PageResult>, i: nat, k: string)
    requires i < |pages| && !pages[i].redacted
    ensures SeenIn(pages, k) <==> SeenIn(pages[..i] + pages[i + 1..], k)
  {
    var others := pages[..i] + pages[i + 1..];
    if SeenIn(pages, k) {
      var j :| 0 <= j < |pages| && pages[j].redacted && k in pages[j].stats;
      if j < i { assert others[j] == pages[j]; } else { assert others[j - 1] == pages[j]; }
    }
    if SeenIn(others, k) {
      var j :| 0 <= j < |others| && others[j].redacted && k in others[j].stats;
      if j < i { assert others[j] == pages[j]; } else { assert others[j] == pages[j + 1]; }
    }
  }

  /** A page that was not redacted (no text, or an error) adds nothing: the
      totals are those of the other pages. */
  lemma UnredactedPageAddsNothing(pages: seq<PageResult>, i: nat)
    requires i < |pages| && !pages[i].redacted
    ensures Totals(pages) == Totals(pages[..i] + pages[i + 1..])
  {
    var others := pages[..i] + pages[i + 1..];
    TotalsAreSums(pages);
    TotalsAreSums(others);
    var t1, t2 := Totals(pages), Totals(others);
    forall k ensures k in t1 <==> k in t2 {
      DropUnredactedSeen(pages, i, k);
    }
    forall k | k in t1 ensures t1[k] == t2[k] {
      DropUnredactedKeySum(pages, i, k);
      assert Get(t1, k) == Get(t2, k);
    }
  }

  /** A page is redacted exactly when the extractor gave non-empty text and its
      redaction did not raise; then its counts have all eleven keys. A page
      without text gets the no-text placeholder and no counts. */
  lemma PageOutcome(e: Engine, x: Extraction)
    ensures var r := ProcessPage(e, x);
      && (r.redacted <==> x.Extracted? && x.text != "" && e.raises(EmailPattern, x.text).None?)
      && (r.redacted ==> r.stats.Keys == AllLabels() && r.text == Redact(e, x.text).value.text)
      && (!r.redacted ==> r.stats == map[])
      && ((x.NoText? || x == Extracted("")) ==> r.text == NoTextSentinel)
  {
    if x.Extracted? && x.text != "" && e.raises(EmailPattern, x.text).None? {
      RedactCounts(e, x.text);
    }
  }

  /** When at least one page is redacted, `total_redactions` has exactly the
      eleven keys of the counts. */
  lemma TotalsKeys(e: Engine, xs: seq<Extraction>)
    requires exists i :: 0 <= i < |xs| && xs[i].Extracted? && xs[i].text != "" && e.raises(EmailPattern, xs[i].text).None?
    ensures Totals(PageResults(e, xs)).Keys == AllLabels()
  {
    var pages := PageResults(e, xs);
    TotalsAreSums(pages);
    var w :| 0 <= w < |xs| && xs[w].Extracted? && xs[w].text != "" && e.raises(EmailPattern, xs[w].text).None?;
    PageOutcome(e, xs[w]);
    forall k ensures k in Totals(pages) <==> k in AllLabels() {
      if k in AllLabels() {
        assert pages[w].redacted && k in pages[w].stats;
      }
      if SeenIn(pages, k) {
        var i :| 0 <= i < |pages| && pages[i].redacted && k in pages[i].stats;
        PageOutcome(e, xs[i]);
      }
    }
  }
}
