/** The fixed, ordered catalog of sensitive-information categories the
    redactor applies: each category has a label (its key in the counts), an
    ordered list of regular expressions and one replacement token. Emails are
    handled apart, before the catalog, with a single pattern. The patterns are
    kept as the regular-expression source text; what they match is the
    engine's business (module Patterns). */
module Catalog {
  import opened Patterns

  datatype Category = Category(key: string, patterns: seq<Regex>, replacement: string)

  const EmailLabel := "emails"
  const EmailPattern: Regex := @"\b[A-Za-z0-9._%+-]+@[A-Za-z0-9.-]+\.[A-Z|a-z]{2,}\b"
  const EmailReplacement := "[EMAIL REDACTED]"

  const PhonePatterns: seq<Regex> := [
    @"\b(\+\d{1,2}\s?)?\(?\d{3}\)?[\s.-]?\d{3}[\s.-]?\d{4}\b",
    @"\b\d{3}[\s.-]?\d{4}\b",
    @"\b\d{5}[\s.-]?\d{5,6}\b",
    @"\b\(\d{3}\)[\s.-]?\d{3}[\s.-]?\d{4}\b"
  ]

  const SsnPatterns: seq<Regex> := [
    @"\b\d{3}[-]?\d{2}[-]?\d{4}\b",
    @"\bSSN[:\s]+\d{3}[-]?\d{2}[-]?\d{4}\b",
    @"\bSocial Security[:\s]+\d{3}[-]?\d{2}[-]?\d{4}\b"
  ]

  const CreditCardPatterns: seq<Regex> := [
    @"\b(?:\d[ -]*?){13,16}\b",
    @"\b\d{4}[- ]?\d{4}[- ]?\d{4}[- ]?\d{4}\b",
    @"\b\d{4}[- ]?\d{6}[- ]?\d{4}[- ]?\d{1}\b"
  ]

  const DatePatterns: seq<Regex> := [
    @"\b(0?[1-9]|1[0-2])[\/-](0?[1-9]|[12]\d|3[01])[\/-](19|20)\d{2}\b",
    @"\b(19|20)\d{2}[\/-](0?[1-9]|1[0-2])[\/-](0?[1-9]|[12]\d|3[01])\b",
    @"\b(0?[1-9]|[12]\d|3[01])[\/-](0?[1-9]|1[0-2])[\/-](19|20)\d{2}\b",
    @"\b(Jan|Feb|Mar|Apr|May|Jun|Jul|Aug|Sep|Oct|Nov|Dec)[\s.-]+(0?[1-9]|[12]\d|3[01])[\s,.-]+(19|20)\d{2}\b"
  ]

  const AddressPatterns: seq<Regex> := [
    @"\b\d+\s[A-Za-z0-9\s,]+\b(?:Avenue|Ave|Street|St|Road|Rd|Boulevard|Blvd|Drive|Dr|Lane|Ln|Court|Ct|Way|Parkway|Pkwy|Circle|Cir|Place|Pl)\b",
    @"\b\d+\s[A-Za-z0-9\s,]+,\s[A-Za-z\s]+,\s[A-Z]{2}\s\d{5}(-\d{4})?\b",
    @"\bP\.?O\.?\sBox\s\d+\b"
  ]

  const NamePatterns: seq<Regex> := [
    @"\b(Mr\.|Mrs\.|Ms\.|Dr\.|Miss|Prof\.|Sir|Lady|Lord|Madam|Rev\.|Capt\.|Lt\.|Sgt\.|Col\.)\s[A-Z][a-z]+(?:\s[A-Z][a-z]+)*\b",
    @"\b(John|Jane|David|Michael|Robert|Mary|William|James|Patricia|Jennifer|Linda|Elizabeth|Susan|Jessica|Sarah|Thomas|Charles|Karen|Daniel|Matthew|Anthony|Donald|Steven|Paul|Andrew|Mark|George|Richard|Kenneth|Edward|Christopher|Brian|Joseph|Kevin|Jason|Timothy|Jeffrey|Ryan|Jacob|Gary|Nicholas|Eric|Stephen|Jonathan|Larry|Justin|Scott|Brandon|Benjamin|Samuel|Gregory|Alexander|Patrick|Frank|Raymond|Jack|Dennis|Jerry|Tyler|Aaron|Jose|Adam|Nathan|Henry|Douglas|Zachary|Peter|Kyle|Walter|Ethan|Jeremy|Harold|Keith|Christian|Roger|Noah|Gerald|Carl|Terry|Sean|Austin|Arthur|Lawrence|Jesse|Dylan|Bryan|Joe|Jordan|Billy|Bruce|Albert|Willie|Gabriel|Logan|Alan|Juan|Wayne|Roy|Ralph|Randy|Eugene|Vincent|Russell|Elijah|Louis|Bobby|Philip|Johnny|Mary|Patricia|Jennifer|Linda|Elizabeth|Susan|Jessica|Sarah|Karen|Nancy|Lisa|Betty|Margaret|Sandra|Ashley|Kimberly|Emily|Donna|Michelle|Dorothy|Carol|Amanda|Melissa|Deborah|Stephanie|Rebecca|Sharon|Laura|Cynthia|Kathleen|Amy|Shirley|Angela|Helen|Anna|Brenda|Pamela|Nicole|Emma|Samantha|Katherine|Christine|Debra|Rachel|Catherine|Carolyn|Janet|Ruth|Maria|Heather|Diane|Virginia|Julie|Joyce|Victoria|Olivia|Kelly|Christina|Lauren|Joan|Evelyn|Judith|Megan|Cheryl|Andrea|Hannah|Martha|Jacqueline|Frances|Gloria|Ann|Teresa|Kathryn|Sara|Janice|Jean|Alice|Madison|Doris|Abigail|Julia|Judy|Grace|Denise|Amber|Marilyn|Beverly|Danielle|Theresa|Sophia|Marie|Diana|Brittany|Natalie|Isabella|Charlotte|Rose|Alexis|Kayla)\s[A-Z][a-z]+\b",
    @"\b[A-Z][a-z]+,\s[A-Z][a-z]+(?:\s[A-Z]\.)?\b",
    @"\b[A-Z][a-z]+\s[A-Z]\.\s[A-Z][a-z]+\b",
    @"\b[A-Z][a-z]+\s[A-Z][a-z]+\s[A-Z][a-z]+\b",
    @"\b[A-Z][a-z]+\s[A-Z][a-z]+(?:\s(Jr\.|Sr\.|I{1,3}|IV|V|VI|VII|VIII|IX|X))\b",
    @"\b(?:Name|Full Name|Customer|Client|Patient|Employee|Student|Applicant|Recipient|Sender|Buyer|Seller|Owner|User|Member|Subscriber|Contact|Representative)\s*[:;-]\s*[A-Z][a-z]+(?:\s[A-Z][a-z]+)+\b",
    @"\b(?:Sincerely|Regards|Best regards|Yours truly|Yours sincerely|Respectfully|Respectfully submitted|Yours faithfully|Thank you|Thanks|Best wishes),?\s*\n+\s*[A-Z][a-z]+(?:\s[A-Z][a-z]+)+\b",
    @"\b[A-Z][a-z]+(?:\s[A-Z][a-z]+){1,2}\s*,\s*(?:CEO|CTO|CFO|COO|President|Vice President|Director|Manager|Supervisor|Administrator|Coordinator|Specialist|Analyst|Engineer|Developer|Consultant|Advisor|Associate|Assistant|Officer|Executive|Head|Lead|Chief|Senior|Junior)\b"
  ]

  const CompanyPatterns: seq<Regex> := [
    @"\b[A-Z][A-Za-z0-9\s,\.]+\b(?:Inc\.|LLC|Corp\.|Corporation|Ltd\.|Limited|Co\.|Company)\b",
    @"\b[A-Z][A-Za-z0-9\s,\.&]+\b(?:Group|Partners|Associates|Enterprises|Solutions|Technologies|Systems)\b"
  ]

  const FinancialPatterns: seq<Regex> := [
    @"\b\d{8,17}\b",
    @"\bACH[:\s]+\d+\b",
    @"\bRouting[:\s]+\d{9}\b",
    @"\bAccount[:\s]+[\d\s-]+\b"
  ]

  const IdPatterns: seq<Regex> := [
    @"\b[A-Z]{1,2}\d{6,9}\b",
    @"\b\d{2}[-]?\d{7}\b",
    @"\bID[:\s]+[A-Z0-9-]+\b"
  ]

  const NetworkPatterns: seq<Regex> := [
    @"\b(?:\d{1,3}\.){3}\d{1,3}\b",
    @"\b([0-9a-fA-F]{1,4}:){7}[0-9a-fA-F]{1,4}\b",
    @"\b([0-9a-fA-F]{2}[:-]){5}([0-9a-fA-F]{2})\b"
  ]
  /** The categories after emails, in the order they are applied. */
  const Categories: seq<Category> := [
    Category("phones", PhonePatterns, "[PHONE REDACTED]"),
    Category("ssn", SsnPatterns, "[SSN REDACTED]"),
    Category("credit_cards", CreditCardPatterns, "[CREDIT CARD REDACTED]"),
    Category("dates", DatePatterns, "[DATE REDACTED]"),
    Category("addresses", AddressPatterns, "[ADDRESS REDACTED]"),
    Category("names", NamePatterns, "[NAME REDACTED]"),
    Category("companies", CompanyPatterns, "[COMPANY REDACTED]"),
    Category("financial", FinancialPatterns, "[FINANCIAL INFO REDACTED]"),
    Category("ids", IdPatterns, "[ID REDACTED]"),
    Category("network", NetworkPatterns, "[NETWORK INFO REDACTED]")
  ]

  /** The labels of `cats`, in order. */
  function LabelsOf(cats: seq<Category>): (r: seq<string>)
    ensures |r| == |cats| && forall i :: 0 <= i < |cats| ==> r[i] == cats[i].key
    decreases |cats|
  {
    if cats == [] then [] else [cats[0].key] + LabelsOf(cats[1..])
  }

  /** The labels of a list, as a set. */
  function KeySet(labels: seq<string>): set<string> {
    set k | k in labels
  }

  /** No label occurs twice. */
  predicate Distinct(labels: seq<string>)
    decreases |labels|
  {
    labels == [] || (labels[0] !in labels[1..] && Distinct(labels[1..]))
  }

  /** Every key of the counts a redaction returns. */
  function AllLabels(): set<string> {
    {EmailLabel} + KeySet(LabelsOf(Categories))
  }

  /** The catalog's labels, in application order, are the ten the counts use
      besides `emails`; with `emails` they are pairwise distinct. */
  lemma CatalogLabels()
    ensures LabelsOf(Categories) ==
      ["phones", "ssn", "credit_cards", "dates", "addresses", "names", "companies", "financial", "ids", "network"]
    ensures Distinct([EmailLabel] + LabelsOf(Categories))
  {
    var keys := LabelsOf(Categories);
    var expected :=
      ["phones", "ssn", "credit_cards", "dates", "addresses", "names", "companies", "financial", "ids", "network"];
    assert |keys| == |expected|;
    forall i | 0 <= i < |keys| ensures keys[i] == expected[i] {
      assert keys[i] == Categories[i].key;
    }
    assert keys == expected;
    CountKeysDistinct();
    assert [EmailLabel] + expected ==
      ["emails", "phones", "ssn", "credit_cards", "dates", "addresses", "names", "companies", "financial", "ids", "network"];
  }

  /** The eleven keys of the counts are pairwise distinct. */
  lemma CountKeysDistinct()
    ensures Distinct(["emails", "phones", "ssn", "credit_cards", "dates", "addresses", "names", "companies", "financial", "ids", "network"])
  {
    var all :=
      ["emails", "phones", "ssn", "credit_cards", "dates", "addresses", "names", "companies", "financial", "ids", "network"];
    // Two keys of the same length differ in their first character.
    forall i, j | 0 <= i < j < |all| ensures all[i] != all[j] {
      assert |all[i]| != |all[j]| || all[i][0] != all[j][0];
    }
    DistinctFromPairs(all);
  }

  lemma {:induction false} DistinctFromPairs(labels: seq<string>)
    requires forall i, j :: 0 <= i < j < |labels| ==> labels[i] != labels[j]
    ensures Distinct(labels)
    decreases |labels|
  {
    if labels != [] {
      var rest := labels[1..];
      forall i, j | 0 <= i < j < |rest| ensures rest[i] != rest[j] {
        assert rest[i] == labels[i + 1] && rest[j] == labels[j + 1];
      }
      DistinctFromPairs(rest);
    }
  }

  /** The catalog's keys are pairwise distinct and none of them is `emails`. */
  lemma CatalogKeysDistinct()
    ensures Distinct(LabelsOf(Categories))
    ensures EmailLabel !in LabelsOf(Categories)
  {
    CatalogLabels();
    var keys := LabelsOf(Categories);
    assert keys == ([EmailLabel] + keys)[1..];
  }
}
