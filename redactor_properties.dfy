/** What a redaction promises: which counts it reports and where they come
    from, how the returned text is built, and what a failing pattern does. */
module RedactorProperties {
  import opened Wrappers
  import opened Patterns
  import opened Catalog
  import opened Redactor

  // ---------------------------------------------------------------------------
  // Counts are taken from the original text

  /** What one pattern adds to its category's count: its matches in the
      original text, or nothing when `findall` raises. */
  function OriginalCount(e: Engine, p: Regex, text: string): nat {
    if e.raises(p, text).Some? then 0 else Count(e, p, text)
  }

  /** The sum over `ps` of the patterns' counts in the original text. */
  function SumCounts(e: Engine, ps: seq<Regex>, text: string): nat
    decreases |ps|
  {
    if ps == [] then 0 else OriginalCount(e, ps[0], text) + SumCounts(e, ps[1..], text)
  }

  /** A category's count is the sum of its patterns' counts in the ORIGINAL
      text, whatever the working copy is when the category starts. */
  lemma {:induction false} CountFromOriginal(e: Engine, ps: seq<Regex>, replacement: string, text: string, acc: Pass)
    ensures PatternsPass(e, ps, replacement, text, acc).count == acc.count + SumCounts(e, ps, text)
    decreases |ps|
  {
    if ps != [] {
      CountFromOriginal(e, ps[1..], replacement, text, PatternStep(e, ps[0], replacement, text, acc));
    }
  }

  lemma {:induction false} RunCategoriesCounts(e: Engine, cats: seq<Category>, text: string, acc: Redaction)
    requires Distinct(LabelsOf(cats))
    ensures var r := RunCategories(e, cats, text, acc);
      && r.info.Keys == acc.info.Keys + KeySet(LabelsOf(cats))
      && (forall i :: 0 <= i < |cats| ==> cats[i].key in r.info && r.info[cats[i].key] == SumCounts(e, cats[i].patterns, text))
      && (forall k :: k in acc.info && k !in LabelsOf(cats) ==> k in r.info && r.info[k] == acc.info[k])
    decreases |cats|
  {
    if cats != [] {
      var c := cats[0];
      var pass := PatternsPass(e, c.patterns, c.replacement, text, Pass(0, acc.text));
      CountFromOriginal(e, c.patterns, c.replacement, text, Pass(0, acc.text));
      var next := Redaction(pass.working, acc.info[c.key := pass.count]);
      var keys := LabelsOf(cats);
      assert LabelsOf(cats[1..]) == keys[1..];
      assert keys[0] == c.key && c.key !in keys[1..] && Distinct(keys[1..]);
      RunCategoriesCounts(e, cats[1..], text, next);
      var r := RunCategories(e, cats, text, acc);
      assert r == RunCategories(e, cats[1..], text, next);
      assert c.key in next.info && next.info[c.key] == SumCounts(e, c.patterns, text);
      forall i | 0 <= i < |cats| ensures cats[i].key in r.info && r.info[cats[i].key] == SumCounts(e, cats[i].patterns, text) {
        if i > 0 {
          assert cats[i] == cats[1..][i - 1];
        }
      }
      KeySetCons(keys);
    }
  }

  lemma KeySetCons(keys: seq<string>)
    requires keys != []
    ensures KeySet(keys) == {keys[0]} + KeySet(keys[1..])
  {
    assert keys == [keys[0]] + keys[1..];
  }

  /** The counts of a successful redaction have exactly the eleven keys
      `emails`, `phones`, ..., `network`, each present even when it is 0; the
      email count is the number of email matches in the input, and each
      category's count is the sum of its patterns' matches in the input. */
  lemma RedactCounts(e: Engine, text: string)
    requires e.raises(EmailPattern, text).None?
    ensures var info := Redact(e, text).value.info;
      && info.Keys == AllLabels()
      && info[EmailLabel] == Count(e, EmailPattern, text)
      && forall i :: 0 <= i < |Categories| ==> info[Categories[i].key] == SumCounts(e, Categories[i].patterns, text)
  {
    CatalogKeysDistinct();
    var afterEmail := Sub(e, EmailPattern, EmailReplacement, text);
    var acc := Redaction(afterEmail, map[EmailLabel := Count(e, EmailPattern, text)]);
    RunCategoriesCounts(e, Categories, text, acc);
    assert EmailLabel in acc.info && EmailLabel !in LabelsOf(Categories);
  }

  // ---------------------------------------------------------------------------
  // The text is a left-to-right chain of substitutions

  /** One substitution of the pipeline: a pattern and the token that replaces
      its matches. */
  datatype Rule = Rule(pattern: Regex, replacement: string)

  /** What one rule does to the working copy: nothing if the pattern raises on
      the original text (the count step comes first) or on the working copy,
      otherwise every match in the working copy is replaced. */
  function Rewrite(e: Engine, rule: Rule, text: string, working: string): string {
    if e.raises(rule.pattern, text).Some? || e.raises(rule.pattern, working).Some? then working
    else Sub(e, rule.pattern, rule.replacement, working)
  }

  /** The rules in order, each rewriting the previous one's output. */
  function Chain(e: Engine, rules: seq<Rule>, text: string, working: string): string
    decreases |rules|
  {
    if rules == [] then working else Chain(e, rules[1..], text, Rewrite(e, rules[0], text, working))
  }

  /** The patterns of a list, each paired with the category's token. */
  function RulesOf(ps: seq<Regex>, replacement: string): (r: seq<Rule>)
    ensures |r| == |ps| && forall i :: 0 <= i < |ps| ==> r[i] == Rule(ps[i], replacement)
    decreases |ps|
  {
    if ps == [] then [] else [Rule(ps[0], replacement)] + RulesOf(ps[1..], replacement)
  }

  /** The rules of the categories, category after category. */
  function Flatten(cats: seq<Category>): seq<Rule>
    decreases |cats|
  {
    if cats == [] then [] else RulesOf(cats[0].patterns, cats[0].replacement) + Flatten(cats[1..])
  }

  /** The whole pipeline: the email rule, then every catalog pattern in order. */
  function Pipeline(): seq<Rule> {
    [Rule(EmailPattern, EmailReplacement)] + Flatten(Categories)
  }

  lemma {:induction false} ChainAppend(e: Engine, a: seq<Rule>, b: seq<Rule>, text: string, w: string)
    ensures Chain(e, a + b, text, w) == Chain(e, b, text, Chain(e, a, text, w))
    decreases |a|
  {
    if a == [] {
      assert a + b == b;
    } else {
      assert (a + b)[1..] == a[1..] + b;
      ChainAppend(e, a[1..], b, text, Rewrite(e, a[0], text, w));
    }
  }

  /** The working copy a category leaves is the chain of its rules. */
  lemma {:induction false} PatternsWorking(e: Engine, ps: seq<Regex>, replacement: string, text: string, acc: Pass)
    ensures PatternsPass(e, ps, replacement, text, acc).working == Chain(e, RulesOf(ps, replacement), text, acc.working)
    decreases |ps|
  {
    if ps != [] {
      var rules := RulesOf(ps, replacement);
      assert rules[1..] == RulesOf(ps[1..], replacement);
      PatternsWorking(e, ps[1..], replacement, text, PatternStep(e, ps[0], replacement, text, acc));
    }
  }

  lemma {:induction false} RunCategoriesText(e: Engine, cats: seq<Category>, text: string, acc: Redaction)
    ensures RunCategories(e, cats, text, acc).text == Chain(e, Flatten(cats), text, acc.text)
    decreases |cats|
  {
    if cats != [] {
      var c := cats[0];
      var pass := PatternsPass(e, c.patterns, c.replacement, text, Pass(0, acc.text));
      PatternsWorking(e, c.patterns, c.replacement, text, Pass(0, acc.text));
      RunCategoriesText(e, cats[1..], text, Redaction(pass.working, acc.info[c.key := pass.count]));
      ChainAppend(e, RulesOf(c.patterns, c.replacement), Flatten(cats[1..]), text, acc.text);
    }
  }

  /** The redacted text is the input rewritten by the email rule, then by each
      category in catalog order and each of its patterns in list order, every
      step working on the previous step's output. */
  lemma RedactText(e: Engine, text: string)
    requires e.raises(EmailPattern, text).None?
    ensures Redact(e, text).value.text == Chain(e, Pipeline(), text, text)
  {
    var afterEmail := Sub(e, EmailPattern, EmailReplacement, text);
    RunCategoriesText(e, Categories, text, Redaction(afterEmail, map[EmailLabel := Count(e, EmailPattern, text)]));
    assert Pipeline()[1..] == Flatten(Categories);
  }

  // ---------------------------------------------------------------------------
  // Nothing to find, nothing changed

  /** Every count at zero. */
  function ZeroCounts(): map<string, nat> {
    map k | k in AllLabels() :: 0
  }

  /** A count of 0 for each of `keys`. */
  function Zeros(keys: seq<string>): map<string, nat> {
    map k | k in KeySet(keys) :: 0
  }

  lemma {:induction false} PatternsNoMatch(e: Engine, ps: seq<Regex>, replacement: string, text: string, count: nat)
    requires forall j :: 0 <= j < |ps| ==> Count(e, ps[j], text) == 0
    ensures PatternsPass(e, ps, replacement, text, Pass(count, text)) == Pass(count, text)
    decreases |ps|
  {
    if ps != [] {
      assert forall j :: 0 <= j < |ps| - 1 ==> ps[1..][j] == ps[j + 1];
      assert PatternStep(e, ps[0], replacement, text, Pass(count, text)) == Pass(count, text);
      PatternsNoMatch(e, ps[1..], replacement, text, count);
    }
  }

  lemma {:induction false} RunCategoriesNoMatch(e: Engine, cats: seq<Category>, text: string, info: map<string, nat>)
    requires forall i, j :: 0 <= i < |cats| && 0 <= j < |cats[i].patterns| ==> Count(e, cats[i].patterns[j], text) == 0
    ensures RunCategories(e, cats, text, Redaction(text, info)) == Redaction(text, info + Zeros(LabelsOf(cats)))
    decreases |cats|
  {
    if cats != [] {
      var c := cats[0];
      PatternsNoMatch(e, c.patterns, c.replacement, text, 0);
      assert forall i :: 0 <= i < |cats| - 1 ==> cats[1..][i] == cats[i + 1];
      RunCategoriesNoMatch(e, cats[1..], text, info[c.key := 0]);
      var keys := LabelsOf(cats);
      assert LabelsOf(cats[1..]) == keys[1..];
      assert keys == [c.key] + keys[1..];
      ZerosStep(info, c.key, keys[1..]);
    }
  }

  lemma ZerosStep(info: map<string, nat>, key: string, rest: seq<string>)
    ensures info[key := 0] + Zeros(rest) == info + Zeros([key] + rest)
  {
    var l, r := info[key := 0] + Zeros(rest), info + Zeros([key] + rest);
    assert KeySet([key] + rest) == {key} + KeySet(rest);
    assert l.Keys == r.Keys;
    forall k | k in l ensures l[k] == r[k] {
    }
  }

  lemma ZeroCountsSplit()
    ensures ZeroCounts() == map[EmailLabel := 0] + Zeros(LabelsOf(Categories))
  {
    var keys := LabelsOf(Categories);
    assert AllLabels() == {EmailLabel} + KeySet(keys);
  }

  /** If neither the email pattern nor any pattern of the catalog matches the
      input, the input comes back unchanged and every count is 0. */
  lemma NoMatchUnchanged(e: Engine, text: string)
    requires e.raises(EmailPattern, text).None?
    requires Count(e, EmailPattern, text) == 0
    requires forall i, j :: 0 <= i < |Categories| && 0 <= j < |Categories[i].patterns| ==>
      Count(e, Categories[i].patterns[j], text) == 0
    ensures Redact(e, text) == Ok(Redaction(text, ZeroCounts()))
  {
    RunCategoriesNoMatch(e, Categories, text, map[EmailLabel := 0]);
    ZeroCountsSplit();
  }

  // ---------------------------------------------------------------------------
  // A failing pattern is skipped, and the rest still runs

  lemma {:induction false} PatternsAppend(e: Engine, a: seq<Regex>, b: seq<Regex>, replacement: string, text: string, acc: Pass)
    ensures PatternsPass(e, a + b, replacement, text, acc)
         == PatternsPass(e, b, replacement, text, PatternsPass(e, a, replacement, text, acc))
    decreases |a|
  {
    if a == [] {
      assert a + b == b;
    } else {
      assert (a + b)[1..] == a[1..] + b;
      PatternsAppend(e, a[1..], b, replacement, text, PatternStep(e, a[0], replacement, text, acc));
    }
  }

  /** The working copy a run of patterns leaves does not depend on the count
      it starts from, and the final count is shifted by the same amount. */
  lemma {:induction false} PatternsShift(e: Engine, ps: seq<Regex>, replacement: string, text: string, c: nat, d: nat, w: string)
    ensures var q := PatternsPass(e, ps, replacement, text, Pass(c, w));
      PatternsPass(e, ps, replacement, text, Pass(c + d, w)) == Pass(q.count + d, q.working)
    decreases |ps|
  {
    if ps != [] {
      var s := PatternStep(e, ps[0], replacement, text, Pass(c, w));
      assert PatternStep(e, ps[0], replacement, text, Pass(c + d, w)) == Pass(s.count + d, s.working);
      PatternsShift(e, ps[1..], replacement, text, s.count, d, s.working);
    }
  }

  /** A pattern whose `findall` raises on the input is as good as absent: it
      adds nothing to the count, leaves the working copy alone, and the
      patterns after it run as they would without it. */
  lemma FindallFailureSkipsPattern(e: Engine, before: seq<Regex>, p: Regex, after: seq<Regex>,
                                   replacement: string, text: string, acc: Pass)
    requires e.raises(p, text).Some?
    ensures PatternsPass(e, before + [p] + after, replacement, text, acc)
         == PatternsPass(e, before + after, replacement, text, acc)
  {
    PatternsAppend(e, before + [p], after, replacement, text, acc);
    PatternsAppend(e, before, [p], replacement, text, acc);
    PatternsAppend(e, before, after, replacement, text, acc);
  }

  /** A pattern whose `sub` alone raises keeps the matches it counted in the
      input but leaves the working copy as the earlier patterns left it; the
      patterns after it run as they would without it. */
  lemma SubFailureKeepsCount(e: Engine, before: seq<Regex>, p: Regex, after: seq<Regex>,
                             replacement: string, text: string, acc: Pass)
    requires e.raises(p, text).None?
    requires e.raises(p, PatternsPass(e, before, replacement, text, acc).working).Some?
    ensures var q := PatternsPass(e, before + after, replacement, text, acc);
      PatternsPass(e, before + [p] + after, replacement, text, acc) == Pass(q.count + Count(e, p, text), q.working)
  {
    var mid := PatternsPass(e, before, replacement, text, acc);
    PatternsAppend(e, before + [p], after, replacement, text, acc);
    PatternsAppend(e, before, [p], replacement, text, acc);
    PatternsAppend(e, before, after, replacement, text, acc);
    assert PatternsPass(e, [p], replacement, text, mid) == Pass(mid.count + Count(e, p, text), mid.working);
    PatternsShift(e, after, replacement, text, mid.count, Count(e, p, text), mid.working);
  }
}
