/** Redaction of one block of text (`redact_sensitive_info`).

    The email pattern runs first, then every category of the catalog in order,
    and inside a category every pattern in order. Each pattern is COUNTED on the
    original text but SUBSTITUTED in the working copy, which earlier patterns
    may already have rewritten. A pattern whose evaluation raises is skipped and
    the remaining ones still run; an exception from the email pass is not caught
    here and reaches the caller. */
module Redactor {
  import opened Wrappers
  import opened Patterns
  import opened Catalog

  /** The counts so far and the working copy, while one category runs. */
  datatype Pass = Pass(count: nat, working: string)

  /** The text a redaction returns and its count per category key. */
  datatype Redaction = Redaction(text: string, info: map<string, nat>)

  /** One turn of the loop over a category's patterns. If `findall` on the
      original text raises, nothing happens; otherwise its matches are counted,
      and `sub` rewrites the working copy unless it raises in turn. */
  function PatternStep(e: Engine, p: Regex, replacement: string, text: string, acc: Pass): Pass {
    match e.raises(p, text)
    case Some(_) => acc
    case None =>
      var counted := acc.count + Count(e, p, text);
      match e.raises(p, acc.working)
      case Some(_) => Pass(counted, acc.working)
      case None => Pass(counted, Sub(e, p, replacement, acc.working))
  }

  /** The patterns `ps`, in order, starting from `acc`. */
  function PatternsPass(e: Engine, ps: seq<Regex>, replacement: string, text: string, acc: Pass): Pass
    decreases |ps|
  {
    if ps == [] then acc
    else PatternsPass(e, ps[1..], replacement, text, PatternStep(e, ps[0], replacement, text, acc))
  }

  /** The categories `cats`, in order, starting from `acc`: each one starts its
      count at 0, works on the text the previous one left, and records its count
      under its key. */
  function RunCategories(e: Engine, cats: seq<Category>, text: string, acc: Redaction): Redaction
    decreases |cats|
  {
    if cats == [] then acc
    else
      var c := cats[0];
      var pass := PatternsPass(e, c.patterns, c.replacement, text, Pass(0, acc.text));
      RunCategories(e, cats[1..], text, Redaction(pass.working, acc.info[c.key := pass.count]))
  }

  /** What `redact_sensitive_info(text)` returns, or the exception it raises. */
  function Redact(e: Engine, text: string): (r: Outcome<Redaction>)
    ensures r.Raised? <==> e.raises(EmailPattern, text).Some?
  {
    match e.raises(EmailPattern, text)
    case Some(msg) => Raised(msg)
    case None =>
      var afterEmail := Sub(e, EmailPattern, EmailReplacement, text);
      Ok(RunCategories(e, Categories, text, Redaction(afterEmail, map[EmailLabel := Count(e, EmailPattern, text)])))
  }

  /** The state `apply_patterns` shares with `redact_sensitive_info`: the
      original text, the working copy and the counts recorded so far. */
  class RedactionRun {
    const engine: Engine
    const text: string
    var redactedText: string
    var redactionInfo: map<string, nat>

    constructor (engine: Engine, text: string)
      ensures this.engine == engine && this.text == text
      ensures redactedText == text && redactionInfo == map[]
    {
      this.engine := engine;
      this.text := text;
      redactedText := text;
      redactionInfo := map[];
    }

    /** `apply_patterns(patterns, replacement, key)`. */
    method ApplyPatterns(patterns: seq<Regex>, replacement: string, key: string) returns (count: nat)
      modifies this
      ensures Pass(count, redactedText) == PatternsPass(engine, patterns, replacement, text, Pass(0, old(redactedText)))
      ensures redactionInfo == old(redactionInfo)[key := count]
    {
      count := 0;
      var i := 0;
      while i < |patterns|
        invariant 0 <= i <= |patterns|
        invariant PatternsPass(engine, patterns[i..], replacement, text, Pass(count, redactedText))
               == PatternsPass(engine, patterns, replacement, text, Pass(0, old(redactedText)))
        invariant redactionInfo == old(redactionInfo)
      {
        var pattern := patterns[i];
        assert patterns[i..][1..] == patterns[i + 1..];
        match engine.raises(pattern, text) {
          case Some(_) =>
            // findall raised: the pattern is logged and skipped
          case None =>
            count := count + Count(engine, pattern, text);
            match engine.raises(pattern, redactedText) {
              case Some(_) =>
                // sub raised: the count stays, the working copy does not change
              case None =>
                redactedText := Sub(engine, pattern, replacement, redactedText);
            }
        }
        i := i + 1;
      }
      redactionInfo := redactionInfo[key := count];
    }
  }

  /** `redact_sensitive_info(text)`: the email pass, then the categories of
      the catalog in order. */
  method RedactSensitiveInfo(e: Engine, text: string) returns (result: Outcome<Redaction>)
    ensures result == Redact(e, text)
  {
    var run := new RedactionRun(e, text);
    match e.raises(EmailPattern, run.redactedText) {
      case Some(msg) =>
        return Raised(msg);
      case None =>
    }
    run.redactedText := Sub(e, EmailPattern, EmailReplacement, run.redactedText);
    run.redactionInfo := run.redactionInfo[EmailLabel := Count(e, EmailPattern, text)];
    ghost var start := Redaction(run.redactedText, run.redactionInfo);
    var i := 0;
    while i < |Categories|
      invariant 0 <= i <= |Categories|
      invariant RunCategories(e, Categories[i..], text, Redaction(run.redactedText, run.redactionInfo))
             == RunCategories(e, Categories, text, start)
    {
      var c := Categories[i];
      assert Categories[i..][1..] == Categories[i + 1..];
      var _ := run.ApplyPatterns(c.patterns, c.replacement, c.key);
      i := i + 1;
    }
    result := Ok(Redaction(run.redactedText, run.redactionInfo));
  }
}
