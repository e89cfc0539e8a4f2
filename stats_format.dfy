/** The web page's one-line summary of a page's counts
    (`formatRedactionStats`): the positive counts, largest first, each shown
    as "<Label>: <count>" and joined with ", ". */
module StatsFormat {
  import opened Wrappers

  /** One `[key, count]` pair of `Object.entries(stats)`, in the object's
      insertion order. */
  datatype Entry = Entry(key: string, count: int)

  const NothingDetected := "No sensitive information detected"

  // ---------------------------------------------------------------------------
  // Keeping the positive counts

  /** `.filter(([_, count]) => count > 0)`. */
  function Positive(entries: seq<Entry>): (r: seq<Entry>)
    ensures forall x :: x in r <==> x in entries && x.count > 0
    ensures forall i :: 0 <= i < |r| ==> r[i].count > 0
    decreases |entries|
  {
    if entries == [] then []
    else if entries[0].count > 0 then [entries[0]] + Positive(entries[1..])
    else Positive(entries[1..])
  }

  // ---------------------------------------------------------------------------
  // Stable sort by count, largest first

  /** Every count is at least the next one. */
  predicate SortedByCount(s: seq<Entry>)
    decreases |s|
  {
    |s| <= 1 || (s[0].count >= s[1].count && SortedByCount(s[1..]))
  }

  /** In entries sorted by count, the first count is the largest. */
  lemma {:induction false} SortedFirstIsLargest(s: seq<Entry>)
    requires SortedByCount(s)
    ensures forall i :: 0 <= i < |s| ==> s[i].count <= s[0].count
    decreases |s|
  {
    if |s| > 1 {
      SortedFirstIsLargest(s[1..]);
      assert forall i :: 1 <= i < |s| ==> s[i] == s[1..][i - 1];
    }
  }

  /** The entries of `s` whose count is `v`, in their order in `s`. */
  function WithCount(s: seq<Entry>, v: int): seq<Entry>
    decreases |s|
  {
    if s == [] then []
    else (if s[0].count == v then [s[0]] else []) + WithCount(s[1..], v)
  }

  /** `x` placed after every entry of `s` whose count is at least its own. */
  function Insert(x: Entry, s: seq<Entry>): (r: seq<Entry>)
    requires SortedByCount(s)
    ensures SortedByCount(r)
    ensures |r| == |s| + 1 && forall y :: y in r <==> y == x || y in s
    decreases |s|
  {
    if s == [] then [x]
    else if s[0].count >= x.count then
      var rest := Insert(x, s[1..]);
      assert rest[0] == x || rest[0] == s[1] by {
        assert rest[0] in rest;
      }
      [s[0]] + rest
    else [x] + s
  }

  /** `.sort((a, b) => b[1] - a[1])`: insertion sort of the entries in
      order, largest count first. */
  function SortByCount(s: seq<Entry>): (r: seq<Entry>)
    ensures SortedByCount(r)
    ensures |r| == |s| && forall y :: y in r <==> y in s
    decreases |s|
  {
    if s == [] then []
    else
      assert s == s[..|s| - 1] + [s[|s| - 1]];
      Insert(s[|s| - 1], SortByCount(s[..|s| - 1]))
  }

  lemma {:induction false} WithCountAppend(a: seq<Entry>, b: seq<Entry>, v: int)
    ensures WithCount(a + b, v) == WithCount(a, v) + WithCount(b, v)
    decreases |a|
  {
    if a == [] {
      assert a + b == b;
    } else {
      var head := if a[0].count == v then [a[0]] else [];
      assert (a + b)[0] == a[0] && (a + b)[1..] == a[1..] + b;
      WithCountAppend(a[1..], b, v);
      calc {
        WithCount(a + b, v);
        head + WithCount(a[1..] + b, v);
        head + (WithCount(a[1..], v) + WithCount(b, v));
        { assert head + (WithCount(a[1..], v) + WithCount(b, v)) == (head + WithCount(a[1..], v)) + WithCount(b, v); }
        WithCount(a, v) + WithCount(b, v);
      }
    }
  }

  lemma {:induction false} WithCountAbsent(s: seq<Entry>, v: int)
    requires forall i :: 0 <= i < |s| ==> s[i].count != v
    ensures WithCount(s, v) == []
    decreases |s|
  {
    if s != [] {
      WithCountAbsent(s[1..], v);
    }
  }

  lemma {:induction false} InsertStable(x: Entry, s: seq<Entry>, v: int)
    requires SortedByCount(s)
    ensures WithCount(Insert(x, s), v) == WithCount(s, v) + (if x.count == v then [x] else [])
    decreases |s|
  {
    if s == [] {
      assert Insert(x, s) == [x] && [x][1..] == [];
    } else if s[0].count >= x.count {
      InsertStable(x, s[1..], v);
      InsertStableBehind(x, s, v);
    } else {
      InsertStableInFront(x, s, v);
    }
  }

  lemma InsertStableBehind(x: Entry, s: seq<Entry>, v: int)
    requires SortedByCount(s) && s != [] && s[0].count >= x.count
    requires WithCount(Insert(x, s[1..]), v) == WithCount(s[1..], v) + (if x.count == v then [x] else [])
    ensures WithCount(Insert(x, s), v) == WithCount(s, v) + (if x.count == v then [x] else [])
  {
    var tail := if x.count == v then [x] else [];
    var head := if s[0].count == v then [s[0]] else [];
    var rest := Insert(x, s[1..]);
    assert Insert(x, s) == [s[0]] + rest;
    WithCountAppend([s[0]], rest, v);
    assert [s[0]][1..] == [];
    assert WithCount([s[0]], v) == head;
    assert WithCount(s, v) == head + WithCount(s[1..], v);
    assert head + (WithCount(s[1..], v) + tail) == (head + WithCount(s[1..], v)) + tail;
  }

  lemma InsertStableInFront(x: Entry, s: seq<Entry>, v: int)
    requires SortedByCount(s) && s != [] && s[0].count < x.count
    ensures WithCount(Insert(x, s), v) == WithCount(s, v) + (if x.count == v then [x] else [])
  {
    var tail := if x.count == v then [x] else [];
    assert Insert(x, s) == [x] + s;
    WithCountAppend([x], s, v);
    assert [x][1..] == [];
    assert WithCount([x], v) == tail;
    if x.count == v {
      SortedFirstIsLargest(s);
      WithCountAbsent(s, v);
    }
  }

  /** The sort is stable: the entries that share a count keep their order. */
  lemma {:induction false} SortIsStable(s: seq<Entry>, v: int)
    ensures WithCount(SortByCount(s), v) == WithCount(s, v)
    decreases |s|
  {
    if s != [] {
      var n := |s| - 1;
      var init, last := s[..n], s[n];
      assert s == init + [last];
      var sortedInit := SortByCount(init);
      assert SortByCount(s) == Insert(last, sortedInit);
      SortIsStable(init, v);
      InsertStable(last, sortedInit, v);
      WithCountAppend(init, [last], v);
      assert [last][1..] == [];
      assert WithCount([last], v) == if last.count == v then [last] else [];
    }
  }

  lemma {:induction false} InsertPermutes(x: Entry, s: seq<Entry>)
    requires SortedByCount(s)
    ensures multiset(Insert(x, s)) == multiset(s) + multiset{x}
    decreases |s|
  {
    if s != [] && s[0].count >= x.count {
      InsertPermutes(x, s[1..]);
      assert s == [s[0]] + s[1..];
    }
  }

  /** The sort only reorders: it neither drops nor duplicates an entry. */
  lemma {:induction false} SortPermutes(s: seq<Entry>)
    ensures multiset(SortByCount(s)) == multiset(s)
    decreases |s|
  {
    if s != [] {
      var n := |s| - 1;
      var init, last := s[..n], s[n];
      assert s == init + [last];
      SortPermutes(init);
      InsertPermutes(last, SortByCount(init));
    }
  }

  /** Filtering keeps the order of the entries it keeps. */
  lemma {:induction false} PositiveKeepsOrder(s: seq<Entry>, v: int)
    requires v > 0
    ensures WithCount(Positive(s), v) == WithCount(s, v)
    decreases |s|
  {
    if s != [] {
      PositiveKeepsOrder(s[1..], v);
      if s[0].count > 0 {
        WithCountAppend([s[0]], Positive(s[1..]), v);
      }
    }
  }

  // ---------------------------------------------------------------------------
  // Labels

  /** A character of the regular-expression class `\w`. */
  predicate IsWordChar(c: char) {
    'a' <= c <= 'z' || 'A' <= c <= 'Z' || '0' <= c <= '9' || c == '_'
  }

  /** `toUpperCase` on one character of `\w`. */
  function UpperCase(c: char): char {
    if 'a' <= c <= 'z' then (c as int - 32) as char else c
  }

  /** `.replace(/_/g, ' ')`. */
  function ReplaceUnderscores(s: string): string
    decreases |s|
  {
    if s == [] then [] else [if s[0] == '_' then ' ' else s[0]] + ReplaceUnderscores(s[1..])
  }

  /** `.replace(/\b\w/g, l => l.toUpperCase())`, scanning left to right;
      `afterWord` says whether the character before `s` is in `\w`. */
  function CapitalizeWords(s: string, afterWord: bool): string
    decreases |s|
  {
    if s == [] then []
    else
      [if IsWordChar(s[0]) && !afterWord then UpperCase(s[0]) else s[0]] + CapitalizeWords(s[1..], IsWordChar(s[0]))
  }

  /** The displayed form of a count key. */
  function FormatLabel(key: string): string {
    CapitalizeWords(ReplaceUnderscores(key), false)
  }

  /** Position `i` of `key` begins a word of the label: it is a `\w` character
      other than `_`, and it is first, or follows `_` or a non-`\w` character. */
  predicate WordStart(key: string, i: nat)
    requires i < |key|
  {
    key[i] != '_' && IsWordChar(key[i]) && (i == 0 || key[i - 1] == '_' || !IsWordChar(key[i - 1]))
  }

  lemma {:induction false} ReplaceUnderscoresAt(s: string)
    ensures |ReplaceUnderscores(s)| == |s|
    ensures forall i :: 0 <= i < |s| ==> ReplaceUnderscores(s)[i] == if s[i] == '_' then ' ' else s[i]
    decreases |s|
  {
    if s != [] {
      ReplaceUnderscoresAt(s[1..]);
    }
  }

  lemma {:induction false} CapitalizeWordsAt(s: string, afterWord: bool)
    ensures |CapitalizeWords(s, afterWord)| == |s|
    ensures forall i :: 0 <= i < |s| ==>
      CapitalizeWords(s, afterWord)[i] ==
        if IsWordChar(s[i]) && !(if i == 0 then afterWord else IsWordChar(s[i - 1])) then UpperCase(s[i]) else s[i]
    decreases |s|
  {
    if s != [] {
      var rest := s[1..];
      CapitalizeWordsAt(rest, IsWordChar(s[0]));
      var r := CapitalizeWords(s, afterWord);
      assert r == [if IsWordChar(s[0]) && !afterWord then UpperCase(s[0]) else s[0]]
                  + CapitalizeWords(rest, IsWordChar(s[0]));
      forall i | 0 <= i < |s|
        ensures r[i] == if IsWordChar(s[i]) && !(if i == 0 then afterWord else IsWordChar(s[i - 1])) then UpperCase(s[i]) else s[i]
      {
        if i > 0 {
          assert r[i] == CapitalizeWords(rest, IsWordChar(s[0]))[i - 1];
          assert rest[i - 1] == s[i];
          if i > 1 {
            assert rest[i - 2] == s[i - 1];
          }
        }
      }
    }
  }

  /** Every `_` of the key becomes a space, the first character of every word
      is upper-cased, and every other character stays as it was (`credit_cards`
      is shown as `Credit Cards`). */
  lemma FormatLabelAt(key: string)
    ensures |FormatLabel(key)| == |key|
    ensures forall i :: 0 <= i < |key| ==>
      FormatLabel(key)[i] == if key[i] == '_' then ' ' else if WordStart(key, i) then UpperCase(key[i]) else key[i]
  {
    var t := ReplaceUnderscores(key);
    ReplaceUnderscoresAt(key);
    CapitalizeWordsAt(t, false);
    forall i | 0 <= i < |key|
      ensures FormatLabel(key)[i] == if key[i] == '_' then ' ' else if WordStart(key, i) then UpperCase(key[i]) else key[i]
    {
      assert IsWordChar(t[i]) <==> key[i] != '_' && IsWordChar(key[i]);
      if i > 0 {
        assert IsWordChar(t[i - 1]) <==> key[i - 1] != '_' && IsWordChar(key[i - 1]);
      }
    }
  }

  // ---------------------------------------------------------------------------
  // Numbers

  function DigitChar(d: nat): char
    requires d < 10
  {
    "0123456789"[d]
  }

  predicate IsDigit(c: char) {
    '0' <= c <= '9'
  }

  function DigitValue(c: char): nat
    requires IsDigit(c)
  {
    c as int - '0' as int
  }

  /** The decimal digits of `n`, without leading zeros. */
  function NatToString(n: nat): string
    decreases n
  {
    if n < 10 then [DigitChar(n)] else NatToString(n / 10) + [DigitChar(n % 10)]
  }

  /** `${count}` for an integer count. */
  function IntToString(i: int): string {
    if i < 0 then "-" + NatToString(-i) else NatToString(i)
  }

  /** The number a string of decimal digits denotes. */
  function ParseDigits(s: string): nat
    requires forall i :: 0 <= i < |s| ==> IsDigit(s[i])
    decreases |s|
  {
    if s == [] then 0 else 10 * ParseDigits(s[..|s| - 1]) + DigitValue(s[|s| - 1])
  }

  /** The rendering of a count is a non-empty run of digits without a leading
      zero that reads back as the count. */
  lemma {:induction false} NatToStringRoundTrip(n: nat)
    ensures var s := NatToString(n);
      && |s| > 0
      && (forall i :: 0 <= i < |s| ==> IsDigit(s[i]))
      && (s[0] == '0' ==> n == 0)
      && ParseDigits(s) == n
    decreases n
  {
    if n >= 10 {
      NatToStringRoundTrip(n / 10);
      var s := NatToString(n);
      assert s[..|s| - 1] == NatToString(n / 10);
    }
  }

  // ---------------------------------------------------------------------------
  // The summary line

  /** `${formattedType}: ${count}`. */
  function Render(x: Entry): string {
    FormatLabel(x.key) + ": " + IntToString(x.count)
  }

  /** `.map(...)` of the rendering over the entries. */
  function RenderAll(s: seq<Entry>): (r: seq<string>)
    ensures |r| == |s| && forall i :: 0 <= i < |s| ==> r[i] == Render(s[i])
  {
    seq(|s|, i requires 0 <= i < |s| => Render(s[i]))
  }

  /** `.join(sep)`. */
  function Join(parts: seq<string>, sep: string): string
    decreases |parts|
  {
    if parts == [] then ""
    else if |parts| == 1 then parts[0]
    else parts[0] + sep + Join(parts[1..], sep)
  }

  /** `formatRedactionStats(stats)`, with `None` for `null`/`undefined`. */
  function FormatRedactionStats(stats: Option<seq<Entry>>): (r: Option<string>)
    ensures r.None? <==> stats.None?
    ensures stats.Some? && Positive(stats.value) == [] ==> r == Some(NothingDetected)
  {
    match stats
    case None => None
    case Some(entries) =>
      var nonZero := SortByCount(Positive(entries));
      if |nonZero| == 0 then Some(NothingDetected)
      else Some(Join(RenderAll(nonZero), ", "))
  }

  lemma {:induction false} JoinStartsWithFirst(parts: seq<string>, sep: string)
    requires parts != []
    ensures |parts[0]| <= |Join(parts, sep)| && Join(parts, sep)[..|parts[0]|] == parts[0]
    decreases |parts|
  {
    if |parts| > 1 {
      var j := Join(parts, sep);
      assert j == parts[0] + (sep + Join(parts[1..], sep));
    }
  }

  /** When some count is positive, the summary lists the positive entries,
      one rendered entry each, largest count first, entries with equal counts
      in their original order; it then starts with the largest entry and is
      never the "nothing detected" message. */
  lemma FormatPositive(entries: seq<Entry>)
    requires exists x :: x in entries && x.count > 0
    ensures var sorted := SortByCount(Positive(entries));
      && sorted != []
      && FormatRedactionStats(Some(entries)) == Some(Join(RenderAll(sorted), ", "))
      && SortedByCount(sorted)
      && (forall x :: x in sorted <==> x in entries && x.count > 0)
      && (forall v :: v > 0 ==> WithCount(sorted, v) == WithCount(entries, v))
      && FormatRedactionStats(Some(entries)).value[..|Render(sorted[0])|] == Render(sorted[0])
      && FormatRedactionStats(Some(entries)) != Some(NothingDetected)
  {
    var x :| x in entries && x.count > 0;
    var positive := Positive(entries);
    var sorted := SortByCount(positive);
    assert x in positive && x in sorted;
    forall v | v > 0 ensures WithCount(sorted, v) == WithCount(entries, v) {
      SortIsStable(positive, v);
      PositiveKeepsOrder(entries, v);
    }
    var parts := RenderAll(sorted);
    JoinStartsWithFirst(parts, ", ");
    var out := Join(parts, ", ");
    var first := Render(sorted[0]);
    var k := |FormatLabel(sorted[0].key)|;
    assert first[k] == ':';
    assert out[k] == ':';
    assert ':' in out;
    assert ':' !in NothingDetected;
  }
}
