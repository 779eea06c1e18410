/**
 * Ticker normalisation of fetch_swedish_tickers.py: the conversion of a stockanalysis.com ticker
 * to a Yahoo Finance `.ST` ticker (`_sa_ticker_to_yf`), and the choice of one share class per
 * company (`_deduplicate`).
 */
module Tickers {
  import opened Wrappers

  // ---------------------------------------------------------------------------------------------
  // _sa_ticker_to_yf
  // ---------------------------------------------------------------------------------------------

  /** `s.split(c)`: the pieces between the occurrences of `c`; one piece when `c` does not occur. */
  function Split(s: string, c: char): (r: seq<string>)
    ensures |r| >= 1
    ensures forall i :: 0 <= i < |r| ==> c !in r[i]
  {
    if s == [] then [[]]
    else
      var rest := Split(s[1..], c);
      if s[0] == c then [[]] + rest
      else
        assert forall i :: 1 <= i < |rest| ==> rest[i] == rest[1..][i - 1];
        [[s[0]] + rest[0]] + rest[1..]
  }

  /** `sep.join(parts)`. */
  function Join(parts: seq<string>, sep: char): string
    requires |parts| >= 1
  {
    if |parts| == 1 then parts[0] else parts[0] + [sep] + Join(parts[1..], sep)
  }

  /** `s` with every `a` replaced by `b`. */
  function Replace(s: string, a: char, b: char): (r: string)
    ensures |r| == |s|
    ensures forall i :: 0 <= i < |s| ==> r[i] == if s[i] == a then b else s[i]
  {
    seq(|s|, i requires 0 <= i < |s| => if s[i] == a then b else s[i])
  }

  /** `_sa_ticker_to_yf(sa_ticker)`. */
  function SaTickerToYf(saTicker: string): string
  {
    var parts := Split(saTicker, '.');
    if |parts| == 1 then saTicker + ".ST" else Join(parts, '-') + ".ST"
  }

  /** Joining the pieces of a split with another separator replaces the separator. */
  lemma {:induction false} JoinSplit(s: string, a: char, b: char)
    ensures Join(Split(s, a), b) == Replace(s, a, b)
  {
    if s != [] {
      JoinSplit(s[1..], a, b);
      var rest := Split(s[1..], a);
      assert s == [s[0]] + s[1..];
      if s[0] == a {
        assert Split(s, a)[1..] == rest;
      } else if |rest| > 1 {
        var r := [[s[0]] + rest[0]] + rest[1..];
        assert r[1..] == rest[1..];
        assert Join(rest, b) == rest[0] + [b] + Join(rest[1..], b);
      }
    }
  }

  /** A split yields several pieces exactly when the separator occurs. */
  lemma {:induction false} SplitSingle(s: string, c: char)
    ensures |Split(s, c)| == 1 <==> c !in s
  {
    if s != [] {
      SplitSingle(s[1..], c);
      assert s == [s[0]] + s[1..];
    }
  }

  /**
   * Both branches of `_sa_ticker_to_yf` agree: the result is the ticker with every '.' replaced
   * by '-', then ".ST". It is three characters longer than the ticker, and the part before ".ST"
   * has no '.'; a ticker without '.' is kept as it is.
   */
  lemma SaTickerToYfCorrect(saTicker: string)
    ensures SaTickerToYf(saTicker) == Replace(saTicker, '.', '-') + ".ST"
    ensures |SaTickerToYf(saTicker)| == |saTicker| + 3
    ensures '.' !in SaTickerToYf(saTicker)[..|saTicker|]
    ensures '.' !in saTicker ==> SaTickerToYf(saTicker) == saTicker + ".ST"
  {
    SplitSingle(saTicker, '.');
    JoinSplit(saTicker, '.', '-');
    var r := Replace(saTicker, '.', '-');
    if '.' !in saTicker {
      assert r == saTicker;
    }
    assert (r + ".ST")[..|saTicker|] == r;
  }

  // ---------------------------------------------------------------------------------------------
  // The company name without its "(publ)" marker
  // ---------------------------------------------------------------------------------------------

  /** The regular expression `\s`, on ASCII whitespace. */
  predicate IsSpace(c: char)
  {
    || c == ' ' || c == '\t' || c == '\n' || c == '\r' || c == '\U{000B}' || c == '\U{000C}'
    || c == '\U{001C}' || c == '\U{001D}' || c == '\U{001E}' || c == '\U{001F}'
  }

  /** The number of leading characters of `s` that are whitespace. */
  function LeadingSpaces(s: string): (n: nat)
    ensures n <= |s|
  {
    if s != [] && IsSpace(s[0]) then 1 + LeadingSpaces(s[1..]) else 0
  }

  /** The number of leading characters of `s` that are '.' or ')' (`[.\)]*`). */
  function LeadingCloses(s: string): (n: nat)
    ensures n <= |s|
  {
    if s != [] && (s[0] == '.' || s[0] == ')') then 1 + LeadingCloses(s[1..]) else 0
  }

  /** `s` begins with "(publ" in any letter case. */
  predicate StartsWithPubl(s: string)
  {
    && |s| >= 5 && s[0] == '('
    && (s[1] == 'p' || s[1] == 'P') && (s[2] == 'u' || s[2] == 'U')
    && (s[3] == 'b' || s[3] == 'B') && (s[4] == 'l' || s[4] == 'L')
  }

  /** The length of the match of `\s*\(publ[.\)]*` (ignoring case) at the start of `s`, if any. */
  function PublMatch(s: string): (r: Option<nat>)
    ensures r.Some? ==> 5 <= r.value <= |s|
  {
    var k := LeadingSpaces(s);
    if StartsWithPubl(s[k..]) then Some(k + 5 + LeadingCloses(s[k + 5..])) else None
  }

  /** `re.sub(r"\s*\(publ[.\)]*", "", s, flags=re.IGNORECASE)`. */
  function RemovePubl(s: string): string
    decreases |s|
  {
    if s == [] then []
    else
      var m := PublMatch(s);
      if m.Some? then RemovePubl(s[m.value..]) else [s[0]] + RemovePubl(s[1..])
  }

  function StripLeft(s: string): (r: string)
    ensures |r| <= |s|
  {
    if s != [] && IsSpace(s[0]) then StripLeft(s[1..]) else s
  }

  function StripRight(s: string): (r: string)
    ensures |r| <= |s|
  {
    if s != [] && IsSpace(s[|s| - 1]) then StripRight(s[..|s| - 1]) else s
  }

  /** `str.strip()`. */
  function Strip(s: string): string
  {
    StripRight(StripLeft(s))
  }

  /** The company a row belongs to: its name without "(publ)" and without outer whitespace. */
  function BaseName(name: string): string
  {
    Strip(RemovePubl(name))
  }

  /** A name without '(' has no "(publ" marker: only its outer whitespace is dropped. */
  lemma {:induction false} RemovePublNoParen(s: string)
    requires '(' !in s
    ensures RemovePubl(s) == s
  {
    if s != [] {
      var k := LeadingSpaces(s);
      if StartsWithPubl(s[k..]) {
        assert false;
      }
      assert '(' !in s[1..];
      RemovePublNoParen(s[1..]);
      assert s == [s[0]] + s[1..];
    }
  }

  lemma BaseNameNoParen(name: string)
    requires '(' !in name
    ensures BaseName(name) == Strip(name)
  {
    RemovePublNoParen(name);
  }

  // ---------------------------------------------------------------------------------------------
  // _deduplicate
  // ---------------------------------------------------------------------------------------------

  /** A `(name, ticker)` row of the ticker list. */
  datatype Row = Row(name: string, ticker: string)

  /** One `by_company` entry: a company and its rows, in input order. */
  datatype Group = Group(base: string, variants: seq<Row>)

  const PRIORITY: seq<string> := ["B.ST", "A.ST", "D.ST", "SDB.ST", "SEK.ST", "R.ST", "C.ST"]

  /** `by_company[base].append(row)` on a `defaultdict(list)`, which keeps insertion order. */
  function AddRow(groups: seq<Group>, base: string, row: Row): seq<Group>
  {
    if groups == [] then [Group(base, [row])]
    else if groups[0].base == base then [groups[0].(variants := groups[0].variants + [row])] + groups[1..]
    else [groups[0]] + AddRow(groups[1..], base, row)
  }

  /** `by_company` after the grouping loop has seen `rows`. */
  function GroupsOf(rows: seq<Row>): seq<Group>
  {
    if rows == [] then []
    else AddRow(GroupsOf(rows[..|rows| - 1]), BaseName(rows[|rows| - 1].name), rows[|rows| - 1])
  }

  /** `ticker.endswith(suffix)`. */
  predicate EndsWith(s: string, suffix: string)
  {
    |suffix| <= |s| && s[|s| - |suffix|..] == suffix
  }

  /** The first variant whose ticker ends with `suffix`. */
  function FirstEnding(variants: seq<Row>, suffix: string): Option<Row>
  {
    if variants == [] then None
    else if EndsWith(variants[0].ticker, suffix) then Some(variants[0])
    else FirstEnding(variants[1..], suffix)
  }

  /** `FirstEnding` finds the earliest variant with the suffix, and finds none only when none has it. */
  lemma {:induction false} FirstEndingCorrect(variants: seq<Row>, suffix: string)
    ensures FirstEnding(variants, suffix).Some? ==>
              exists i :: 0 <= i < |variants| && variants[i] == FirstEnding(variants, suffix).value
                          && EndsWith(variants[i].ticker, suffix)
                          && forall j :: 0 <= j < i ==> !EndsWith(variants[j].ticker, suffix)
    ensures FirstEnding(variants, suffix).None? <==> forall i :: 0 <= i < |variants| ==> !EndsWith(variants[i].ticker, suffix)
  {
    if variants != [] && !EndsWith(variants[0].ticker, suffix) {
      FirstEndingCorrect(variants[1..], suffix);
      assert forall i :: 1 <= i < |variants| ==> variants[i] == variants[1..][i - 1];
      if FirstEnding(variants, suffix).Some? {
        var i :| 0 <= i < |variants| - 1 && variants[1..][i] == FirstEnding(variants, suffix).value
                 && EndsWith(variants[1..][i].ticker, suffix)
                 && forall j :: 0 <= j < i ==> !EndsWith(variants[1..][j].ticker, suffix);
        assert variants[i + 1] == variants[1..][i];
      }
    }
  }

  /** The first variant ending with the earliest suffix of `suffixes` that any variant ends with. */
  function BySuffix(variants: seq<Row>, suffixes: seq<string>): Option<Row>
  {
    if suffixes == [] then None
    else
      var r := FirstEnding(variants, suffixes[0]);
      if r.Some? then r else BySuffix(variants, suffixes[1..])
  }

  /** The row `_deduplicate` keeps for a company with these rows. */
  function Pick(variants: seq<Row>): Row
    requires |variants| >= 1
  {
    if |variants| == 1 then variants[0]
    else
      var r := BySuffix(variants, PRIORITY);
      if r.Some? then r.value else variants[0]
  }

  predicate NonEmptyGroups(groups: seq<Group>)
  {
    forall i :: 0 <= i < |groups| ==> |groups[i].variants| >= 1
  }

  /** The result of `_deduplicate(rows)`. */
  function Deduplicated(rows: seq<Row>): seq<Row>
  {
    var groups := GroupsOf(rows);
    GroupsNonEmpty(rows);
    seq(|groups|, i requires 0 <= i < |groups| => Pick(groups[i].variants))
  }

  /** The inner loop over the variants, which stops at the first one with the suffix. */
  method FindEnding(variants: seq<Row>, suffix: string) returns (chosen: Option<Row>)
    ensures chosen == FirstEnding(variants, suffix)
  {
    chosen := None;
    var k := 0;
    while k < |variants|
      invariant 0 <= k <= |variants|
      invariant FirstEnding(variants, suffix) == FirstEnding(variants[k..], suffix)
    {
      assert variants[k..][0] == variants[k] && variants[k..][1..] == variants[k + 1..];
      var ticker := variants[k].ticker;
      if |suffix| <= |ticker| && ticker[|ticker| - |suffix|..] == suffix {
        chosen := Some(variants[k]);
        break;
      }
      k := k + 1;
    }
  }

  /** The loops over `PRIORITY` and the fallback to the first variant. */
  method ChooseVariant(variants: seq<Row>) returns (chosen: Row)
    requires |variants| >= 2
    ensures chosen == Pick(variants)
  {
    var found: Option<Row> := None;
    var s := 0;
    while s < |PRIORITY|
      invariant 0 <= s <= |PRIORITY|
      invariant found.None?
      invariant BySuffix(variants, PRIORITY) == BySuffix(variants, PRIORITY[s..])
    {
      assert PRIORITY[s..][0] == PRIORITY[s] && PRIORITY[s..][1..] == PRIORITY[s + 1..];
      found := FindEnding(variants, PRIORITY[s]);
      if found.Some? {
        break;
      }
      s := s + 1;
    }
    if found.None? {
      chosen := variants[0];
    } else {
      chosen := found.value;
    }
  }

  /** `by_company[base].append(row)` as the grouping loop performs it. */
  method Append(groups: seq<Group>, base: string, row: Row) returns (updated: seq<Group>)
    ensures updated == AddRow(groups, base, row)
  {
    var i := 0;
    while i < |groups| && groups[i].base != base
      invariant 0 <= i <= |groups|
      invariant forall j :: 0 <= j < i ==> groups[j].base != base
    {
      i := i + 1;
    }
    AddRowAt(groups, base, row, i);
    if i == |groups| {
      updated := groups + [Group(base, [row])];
    } else {
      updated := groups[i := groups[i].(variants := groups[i].variants + [row])];
    }
  }

  /** `AddRow` either extends the first group of `base` or appends a new group. */
  lemma {:induction false} AddRowAt(groups: seq<Group>, base: string, row: Row, i: nat)
    requires i <= |groups| && forall j :: 0 <= j < i ==> groups[j].base != base
    requires i < |groups| ==> groups[i].base == base
    ensures i == |groups| ==> AddRow(groups, base, row) == groups + [Group(base, [row])]
    ensures i < |groups| ==> AddRow(groups, base, row) == groups[i := groups[i].(variants := groups[i].variants + [row])]
    decreases i
  {
    if i > 0 {
      AddRowAt(groups[1..], base, row, i - 1);
      assert groups == [groups[0]] + groups[1..];
      if i < |groups| {
        assert [groups[0]] + groups[1..][i - 1 := groups[i].(variants := groups[i].variants + [row])]
               == groups[i := groups[i].(variants := groups[i].variants + [row])];
      }
    } else if groups != [] && i < |groups| {
      assert [groups[0].(variants := groups[0].variants + [row])] + groups[1..]
             == groups[0 := groups[0].(variants := groups[0].variants + [row])];
    }
  }

  /** The grouping loop of `_deduplicate`, which fills `by_company`. */
  method GroupRows(rows: seq<Row>) returns (groups: seq<Group>)
    ensures groups == GroupsOf(rows)
  {
    groups := [];
    for i := 0 to |rows|
      invariant groups == GroupsOf(rows[..i])
    {
      assert rows[..i + 1][..i] == rows[..i];
      var baseName := BaseName(rows[i].name);
      groups := Append(groups, baseName, rows[i]);
    }
    assert rows[..|rows|] == rows;
  }

  /** `_deduplicate(rows)`: group the rows by company, then keep one row per company. */
  method Deduplicate(rows: seq<Row>) returns (result: seq<Row>)
    ensures result == Deduplicated(rows)
  {
    var groups := GroupRows(rows);
    GroupsNonEmpty(rows);
    result := [];
    for g := 0 to |groups|
      invariant |result| == g
      invariant forall j :: 0 <= j < g ==> result[j] == Pick(groups[j].variants)
    {
      var variants := groups[g].variants;
      if |variants| == 1 {
        result := result + [variants[0]];
        continue;
      }
      var chosen := ChooseVariant(variants);
      result := result + [chosen];
    }
  }

  // ---------------------------------------------------------------------------------------------
  // What the deduplication promises
  // ---------------------------------------------------------------------------------------------

  function Bases(rows: seq<Row>): (r: seq<string>)
    ensures |r| == |rows|
    ensures forall i :: 0 <= i < |rows| ==> r[i] == BaseName(rows[i].name)
  {
    seq(|rows|, i requires 0 <= i < |rows| => BaseName(rows[i].name))
  }

  /** The distinct elements of `s` in order of first appearance. */
  function FirstAppearances(s: seq<string>): seq<string>
  {
    if s == [] then []
    else
      var p := FirstAppearances(s[..|s| - 1]);
      if s[|s| - 1] in p then p else p + [s[|s| - 1]]
  }

  /** Each element appears once, and no more elements come out than went in. */
  lemma {:induction false} FirstAppearancesMembers(s: seq<string>)
    ensures |FirstAppearances(s)| <= |s|
    ensures forall x :: x in FirstAppearances(s) <==> x in s
  {
    if s != [] {
      FirstAppearancesMembers(s[..|s| - 1]);
      assert s == s[..|s| - 1] + [s[|s| - 1]];
    }
  }

  /** The rows of company `base`, in input order. */
  function RowsOf(rows: seq<Row>, base: string): seq<Row>
  {
    if rows == [] then []
    else RowsOf(rows[..|rows| - 1], base) + (if BaseName(rows[|rows| - 1].name) == base then [rows[|rows| - 1]] else [])
  }

  function GroupBases(groups: seq<Group>): (r: seq<string>)
    ensures |r| == |groups|
    ensures forall i :: 0 <= i < |groups| ==> r[i] == groups[i].base
  {
    seq(|groups|, i requires 0 <= i < |groups| => groups[i].base)
  }

  /** The position of the group of `base`, or the number of groups when it has none. */
  function GroupIndex(groups: seq<Group>, base: string): (i: nat)
    ensures i <= |groups|
    ensures forall j :: 0 <= j < i ==> groups[j].base != base
    ensures i < |groups| ==> groups[i].base == base
  {
    if groups == [] || groups[0].base == base then 0 else 1 + GroupIndex(groups[1..], base)
  }

  /** `AddRow` keeps the companies in place and appends a new one at the end. */
  lemma AddRowBases(groups: seq<Group>, base: string, row: Row)
    ensures GroupBases(AddRow(groups, base, row)) ==
              if base in GroupBases(groups) then GroupBases(groups) else GroupBases(groups) + [base]
  {
    var k := GroupIndex(groups, base);
    AddRowAt(groups, base, row, k);
    if base in GroupBases(groups) {
      var j :| 0 <= j < |groups| && GroupBases(groups)[j] == base;
      assert k <= j;
    }
  }

  /** The grouping has one group per company, in order of first appearance. */
  lemma {:induction false} GroupsBases(rows: seq<Row>)
    ensures GroupBases(GroupsOf(rows)) == FirstAppearances(Bases(rows))
  {
    if rows != [] {
      var p := rows[..|rows| - 1];
      var b := BaseName(rows[|rows| - 1].name);
      GroupsBases(p);
      AddRowBases(GroupsOf(p), b, rows[|rows| - 1]);
      BasesLast(rows);
      var bs := Bases(rows);
      assert bs[..|rows| - 1] == Bases(p);
      assert FirstAppearances(bs) == if b in FirstAppearances(Bases(p)) then FirstAppearances(Bases(p))
                                     else FirstAppearances(Bases(p)) + [b];
    }
  }

  /** Each group holds exactly its company's rows, in input order. */
  predicate GroupsHoldRows(rows: seq<Row>)
  {
    forall i :: 0 <= i < |GroupsOf(rows)| ==> GroupsOf(rows)[i].variants == RowsOf(rows, GroupsOf(rows)[i].base)
  }

  lemma {:induction false} GroupsRows(rows: seq<Row>)
    ensures GroupsHoldRows(rows)
  {
    if rows != [] {
      var p := rows[..|rows| - 1];
      var last := rows[|rows| - 1];
      var b := BaseName(last.name);
      GroupsRows(p);
      var g := GroupsOf(p);
      var k := GroupIndex(g, b);
      AddRowAt(g, b, last, k);
      forall i | 0 <= i < |GroupsOf(rows)| ensures GroupsOf(rows)[i].variants == RowsOf(rows, GroupsOf(rows)[i].base) {
        GroupRowsStep(rows, i);
      }
    }
  }

  /** One group after the last row was added: the induction step of `GroupsRows`. */
  lemma GroupRowsStep(rows: seq<Row>, i: nat)
    requires rows != []
    requires GroupsHoldRows(rows[..|rows| - 1])
    requires i < |GroupsOf(rows)|
    ensures GroupsOf(rows)[i].variants == RowsOf(rows, GroupsOf(rows)[i].base)
  {
    var p := rows[..|rows| - 1];
    var last := rows[|rows| - 1];
    var b := BaseName(last.name);
    var g := GroupsOf(p);
    var k := GroupIndex(g, b);
    AddRowAt(g, b, last, k);
    var a := GroupsOf(rows);
    assert a == AddRow(g, b, last);
    if i < |g| && i != k {
      assert a[i] == g[i];
      if k < |g| {
        GroupsDistinct(p);
      }
      assert g[i].base != b;
      assert RowsOf(rows, g[i].base) == RowsOf(p, g[i].base);
    } else if i < |g| {
      assert a[i].variants == g[i].variants + [last] && g[i].base == b;
      assert RowsOf(rows, b) == RowsOf(p, b) + [last];
    } else {
      assert k == |g| && a[i] == Group(b, [last]);
      assert b !in GroupBases(g);
      GroupsAbsent(p, b);
      assert RowsOf(rows, b) == RowsOf(p, b) + [last];
    }
  }

  /** `Bases` of a list is `Bases` of all but its last row, then the last row's company. */
  lemma BasesLast(rows: seq<Row>)
    requires rows != []
    ensures Bases(rows) == Bases(rows[..|rows| - 1]) + [BaseName(rows[|rows| - 1].name)]
  {
  }

  /** No company has two groups. */
  lemma GroupsDistinct(rows: seq<Row>)
    ensures forall i, j :: 0 <= i < j < |GroupsOf(rows)| ==> GroupsOf(rows)[i].base != GroupsOf(rows)[j].base
  {
    GroupsBases(rows);
    FirstAppearancesDistinct(Bases(rows));
    var g := GroupsOf(rows);
    forall i, j | 0 <= i < j < |g| ensures g[i].base != g[j].base {
      assert GroupBases(g)[i] == g[i].base && GroupBases(g)[j] == g[j].base;
    }
  }

  /** A company without a group has no rows. */
  lemma GroupsAbsent(rows: seq<Row>, base: string)
    requires base !in GroupBases(GroupsOf(rows))
    ensures RowsOf(rows, base) == []
  {
    GroupsBases(rows);
    FirstAppearancesMembers(Bases(rows));
    RowsOfAbsent(rows, base);
  }

  /**
   * The grouping: one group per company, in order of first appearance, each holding exactly
   * that company's rows in input order.
   */
  lemma GroupsCorrect(rows: seq<Row>)
    ensures GroupBases(GroupsOf(rows)) == FirstAppearances(Bases(rows))
    ensures forall i :: 0 <= i < |GroupsOf(rows)| ==> GroupsOf(rows)[i].variants == RowsOf(rows, GroupsOf(rows)[i].base)
  {
    GroupsBases(rows);
    GroupsRows(rows);
  }

  /** A company that no row belongs to has no rows. */
  lemma {:induction false} RowsOfAbsent(rows: seq<Row>, base: string)
    requires base !in Bases(rows)
    ensures RowsOf(rows, base) == []
  {
    if rows != [] {
      var p := rows[..|rows| - 1];
      assert forall i :: 0 <= i < |p| ==> Bases(p)[i] == Bases(rows)[i];
      RowsOfAbsent(p, base);
    }
  }

  lemma {:induction false} FirstAppearancesDistinct(s: seq<string>)
    ensures forall i, j :: 0 <= i < j < |FirstAppearances(s)| ==> FirstAppearances(s)[i] != FirstAppearances(s)[j]
  {
    if s != [] {
      FirstAppearancesDistinct(s[..|s| - 1]);
    }
  }

  lemma GroupsNonEmpty(rows: seq<Row>)
    ensures NonEmptyGroups(GroupsOf(rows))
  {
    GroupsCorrect(rows);
    FirstAppearancesMembers(Bases(rows));
    var g := GroupsOf(rows);
    forall i | 0 <= i < |g| ensures |g[i].variants| >= 1 {
      assert g[i].base in FirstAppearances(Bases(rows));
      var k :| 0 <= k < |rows| && Bases(rows)[k] == g[i].base;
      RowsOfPresent(rows, g[i].base, k);
    }
  }

  lemma {:induction false} RowsOfPresent(rows: seq<Row>, base: string, k: nat)
    requires k < |rows| && BaseName(rows[k].name) == base
    ensures rows[k] in RowsOf(rows, base)
  {
    var p := rows[..|rows| - 1];
    if k < |rows| - 1 {
      assert p[k] == rows[k];
      RowsOfPresent(p, base, k);
    }
  }

  /**
   * `_deduplicate` keeps exactly one row per company, in order of the company's first
   * appearance: the kept row belongs to that company, is one of the input rows and is the one
   * `Pick` chooses among that company's rows. So no more rows come out than went in.
   */
  lemma DeduplicatedCorrect(rows: seq<Row>)
    ensures |Deduplicated(rows)| == |FirstAppearances(Bases(rows))| <= |rows|
    ensures forall i :: 0 <= i < |Deduplicated(rows)| ==>
              && |RowsOf(rows, FirstAppearances(Bases(rows))[i])| >= 1
              && Deduplicated(rows)[i] == Pick(RowsOf(rows, FirstAppearances(Bases(rows))[i]))
    ensures forall i :: 0 <= i < |Deduplicated(rows)| ==> BaseName(Deduplicated(rows)[i].name) == FirstAppearances(Bases(rows))[i]
    ensures forall r :: r in Deduplicated(rows) ==> r in rows
  {
    GroupsCorrect(rows);
    GroupsNonEmpty(rows);
    FirstAppearancesMembers(Bases(rows));
    var g := GroupsOf(rows);
    var d := Deduplicated(rows);
    forall i | 0 <= i < |d|
      ensures d[i] in rows && BaseName(d[i].name) == FirstAppearances(Bases(rows))[i]
      ensures |RowsOf(rows, FirstAppearances(Bases(rows))[i])| >= 1
    {
      assert GroupBases(g)[i] == g[i].base;
      PickIn(g[i].variants);
      RowsOfSubset(rows, g[i].base);
    }
  }

  lemma {:induction false} RowsOfSubset(rows: seq<Row>, base: string)
    ensures forall r :: r in RowsOf(rows, base) ==> r in rows && BaseName(r.name) == base
  {
    if rows != [] {
      var p := rows[..|rows| - 1];
      RowsOfSubset(p, base);
      assert forall r :: r in p ==> r in rows;
    }
  }

  lemma PickIn(variants: seq<Row>)
    requires |variants| >= 1
    ensures Pick(variants) in variants
  {
    if |variants| > 1 {
      BySuffixIn(variants, PRIORITY);
    }
  }

  lemma {:induction false} BySuffixIn(variants: seq<Row>, suffixes: seq<string>)
    ensures BySuffix(variants, suffixes).Some? ==> BySuffix(variants, suffixes).value in variants
  {
    if suffixes != [] {
      FirstEndingCorrect(variants, suffixes[0]);
      BySuffixIn(variants, suffixes[1..]);
    }
  }

  /** `BySuffix` answers with the first suffix, in order, that some variant ends with. */
  lemma {:induction false} BySuffixFirst(variants: seq<Row>, suffixes: seq<string>)
    ensures BySuffix(variants, suffixes).Some? ==>
              exists s :: 0 <= s < |suffixes| && BySuffix(variants, suffixes) == FirstEnding(variants, suffixes[s])
                          && forall t :: 0 <= t < s ==> FirstEnding(variants, suffixes[t]).None?
  {
    if suffixes != [] && FirstEnding(variants, suffixes[0]).None? {
      var rest := suffixes[1..];
      BySuffixFirst(variants, rest);
      if BySuffix(variants, rest).Some? {
        var s :| 0 <= s < |rest| && BySuffix(variants, rest) == FirstEnding(variants, rest[s])
                 && forall t :: 0 <= t < s ==> FirstEnding(variants, rest[t]).None?;
        assert suffixes[s + 1] == rest[s];
        forall t | 0 <= t < s + 1 ensures FirstEnding(variants, suffixes[t]).None? {
          if t > 0 {
            assert suffixes[t] == rest[t - 1];
          }
        }
      }
    }
  }

  /** `BySuffix` finds nothing exactly when no variant ends with any of the suffixes. */
  lemma {:induction false} BySuffixNone(variants: seq<Row>, suffixes: seq<string>)
    ensures BySuffix(variants, suffixes).None? <==>
              forall s, i :: 0 <= s < |suffixes| && 0 <= i < |variants| ==> !EndsWith(variants[i].ticker, suffixes[s])
  {
    if suffixes != [] {
      var rest := suffixes[1..];
      BySuffixNone(variants, rest);
      FirstEndingCorrect(variants, suffixes[0]);
      assert forall s :: 1 <= s < |suffixes| ==> suffixes[s] == rest[s - 1];
    }
  }

  /** Some variant's ticker ends with `PRIORITY[s]`. */
  predicate SomeEndsWith(variants: seq<Row>, s: nat)
    requires s < |PRIORITY|
  {
    exists i :: 0 <= i < |variants| && EndsWith(variants[i].ticker, PRIORITY[s])
  }

  /**
   * The choice among several rows follows `PRIORITY`: when some row's ticker ends with one of
   * its suffixes, the kept row is the first row ending with the earliest such suffix; when none
   * does, it is the first row.
   */
  lemma PickCorrect(variants: seq<Row>)
    requires |variants| >= 2
    ensures (forall s :: 0 <= s < |PRIORITY| ==> !SomeEndsWith(variants, s)) ==> Pick(variants) == variants[0]
    ensures (exists s :: 0 <= s < |PRIORITY| && SomeEndsWith(variants, s)) ==>
              exists s, i :: 0 <= s < |PRIORITY| && 0 <= i < |variants| && Pick(variants) == variants[i]
                             && EndsWith(variants[i].ticker, PRIORITY[s])
                             && (forall j :: 0 <= j < i ==> !EndsWith(variants[j].ticker, PRIORITY[s]))
                             && (forall t :: 0 <= t < s ==> !SomeEndsWith(variants, t))
  {
    PickFallback(variants);
    PickPriority(variants);
  }

  /** No ticker ends with a priority suffix: the first row is kept. */
  lemma PickFallback(variants: seq<Row>)
    requires |variants| >= 2
    ensures (forall s :: 0 <= s < |PRIORITY| ==> !SomeEndsWith(variants, s)) ==> Pick(variants) == variants[0]
  {
    BySuffixNone(variants, PRIORITY);
    if forall s :: 0 <= s < |PRIORITY| ==> !SomeEndsWith(variants, s) {
      forall s, i | 0 <= s < |PRIORITY| && 0 <= i < |variants| ensures !EndsWith(variants[i].ticker, PRIORITY[s]) {
        assert !SomeEndsWith(variants, s);
      }
    }
  }

  /** Some ticker ends with a priority suffix: the first row with the earliest such suffix is kept. */
  lemma PickPriority(variants: seq<Row>)
    requires |variants| >= 2
    ensures (exists s :: 0 <= s < |PRIORITY| && SomeEndsWith(variants, s)) ==>
              exists s, i :: 0 <= s < |PRIORITY| && 0 <= i < |variants| && Pick(variants) == variants[i]
                             && EndsWith(variants[i].ticker, PRIORITY[s])
                             && (forall j :: 0 <= j < i ==> !EndsWith(variants[j].ticker, PRIORITY[s]))
                             && (forall t :: 0 <= t < s ==> !SomeEndsWith(variants, t))
  {
    BySuffixNone(variants, PRIORITY);
    BySuffixFirst(variants, PRIORITY);
    var r := BySuffix(variants, PRIORITY);
    if r.Some? {
      var s :| 0 <= s < |PRIORITY| && r == FirstEnding(variants, PRIORITY[s])
               && forall t :: 0 <= t < s ==> FirstEnding(variants, PRIORITY[t]).None?;
      FirstEndingCorrect(variants, PRIORITY[s]);
      var i :| 0 <= i < |variants| && variants[i] == r.value && EndsWith(variants[i].ticker, PRIORITY[s])
               && forall j :: 0 <= j < i ==> !EndsWith(variants[j].ticker, PRIORITY[s]);
      forall t | 0 <= t < s ensures !SomeEndsWith(variants, t) {
        FirstEndingCorrect(variants, PRIORITY[t]);
      }
      assert Pick(variants) == variants[i];
    } else {
      assert forall s :: 0 <= s < |PRIORITY| ==> !SomeEndsWith(variants, s);
    }
  }

  /** A company with a single row keeps it. */
  lemma PickSingle(row: Row)
    ensures Pick([row]) == row
  {
  }

  /**
   * Suffix matching is on the end of the whole ticker, so a class-SDB ticker also ends with
   * "B.ST", the first priority: between an A share and an SDB share the SDB share is kept.
   */
  lemma SdbCountsAsB()
    ensures EndsWith("ALIV-SDB.ST", "B.ST")
    ensures Pick([Row("Alpha", "ALPH-A.ST"), Row("Alpha SDB", "ALPH-SDB.ST")]) == Row("Alpha SDB", "ALPH-SDB.ST")
  {
    var v := [Row("Alpha", "ALPH-A.ST"), Row("Alpha SDB", "ALPH-SDB.ST")];
    assert !EndsWith(v[0].ticker, "B.ST");
    assert EndsWith(v[1].ticker, "B.ST");
    assert v[1..] == [v[1]];
    assert FirstEnding(v, "B.ST") == Some(v[1]);
  }
}
