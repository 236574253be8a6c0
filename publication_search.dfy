/**
 * The publication search results page (`publications/search/page.tsx`): it
 * keeps the non-empty query parameters as its filters, then keeps the
 * publications that pass every filter, in their original order. A magazine
 * must match exactly; a number is compared as `String(número)`; a date bound
 * `Y-M` is compared through `new Date(...)` objects: the publication's month
 * must not precede the `dateFrom` month, and its day must not follow the
 * last day of the `dateTo` month.
 */
module PublicationSearch {
  import opened Wrappers
  import opened Text
  import opened Publications

  /** The query parameters; a missing one is `None`. */
  datatype Query = Query(revista: Option<string>, numero: Option<string>,
                         dateFrom: Option<string>, dateTo: Option<string>)

  /** A parameter that is present and truthy. */
  predicate IsSet(o: Option<string>) {
    o.Some? && o.value != ""
  }

  function KeepIfSet(o: Option<string>): (r: Option<string>)
    ensures IsSet(o) ==> r == o
    ensures !IsSet(o) ==> r.None?
  {
    if IsSet(o) then o else None
  }

  /** The `filters` record: the parameters that are present and non-empty, and no others. */
  function BuildFilters(q: Query): (f: Query)
    ensures Active(f)
    ensures IsSet(f.revista) == IsSet(q.revista) && IsSet(f.numero) == IsSet(q.numero)
    ensures IsSet(f.dateFrom) == IsSet(q.dateFrom) && IsSet(f.dateTo) == IsSet(q.dateTo)
  {
    Query(KeepIfSet(q.revista), KeepIfSet(q.numero), KeepIfSet(q.dateFrom), KeepIfSet(q.dateTo))
  }

  /** Every parameter given is non-empty. */
  predicate Active(f: Query) {
    (f.revista.Some? ==> IsSet(f.revista)) && (f.numero.Some? ==> IsSet(f.numero))
    && (f.dateFrom.Some? ==> IsSet(f.dateFrom)) && (f.dateTo.Some? ==> IsSet(f.dateTo))
  }

  /** Building the filters twice changes nothing. */
  lemma BuildFiltersIdempotent(q: Query)
    ensures BuildFilters(BuildFilters(q)) == BuildFilters(q)
  {
  }

  // ---------------------------------------------------------------------------
  // Date bounds

  /** `const [y, m] = bound.split('-')` followed by `if (!y || !m)`: the year and month texts, when both are there. */
  function BoundParts(bound: string): (r: Option<(string, string)>)
    ensures r.Some? ==> r.value.0 != "" && r.value.1 != "" && '-' !in r.value.0 && '-' !in r.value.1
  {
    var parts := Split(bound, '-');
    if parts[0] == "" || |parts| < 2 || parts[1] == "" then None else Some((parts[0], parts[1]))
  }

  /** The month index of `new Date(year, month0, 1)`; `None` when an argument is `NaN`. */
  function MonthStart(year: Option<int>, month0: Option<int>): Option<int> {
    if year.Some? && month0.Some? then Some(MonthIndex(year.value, month0.value)) else None
  }

  function Minus1(v: Option<int>): Option<int> {
    if v.Some? then Some(v.value - 1) else None
  }

  /**
   * The `dateFrom` test. A malformed bound or an unusable date excludes the
   * publication; otherwise the dates `new Date(fromYear, fromMonth - 1, 1)`
   * and `new Date(pubYear, pubMonth - 1, 1)` are compared, and a comparison
   * with an invalid date is false, so it excludes nothing. The publication's
   * year and month are used as numbers: the source writes them with
   * `String`/`padStart` and reads them back with `parseInt`, which gives them
   * back unchanged (`ParseIntOfIntToString`, `MonthStringParses`).
   */
  predicate FromOk(date: PubDate, bound: string) {
    var parts := BoundParts(bound);
    parts.Some? && FromOkParsed(date, ParseInt(parts.value.0), ParseInt(parts.value.1))
  }

  /** The `dateFrom` test once the bound's year and month texts are read (`None` for `NaN`). */
  predicate FromOkParsed(date: PubDate, fromYear: Option<int>, fromMonth: Option<int>) {
    && date.ValidDate?
    && var fromDate := MonthStart(fromYear, Minus1(fromMonth));
       var pubDate := MonthIndex(date.year, date.month - 1);
       !(fromDate.Some? && pubDate < fromDate.value)
  }

  /** The (month index, day) of `new Date(year, month, 0)`: the last day of the month before `month`. */
  function LastDayBefore(year: Option<int>, month: Option<int>): Option<(int, int)> {
    if year.Some? && month.Some? then
      var k := MonthIndex(year.value, month.value) - 1;
      Some((k, DaysInMonthIndex(k)))
    else None
  }

  /** `a > b` for two (month index, day) pairs whose days lie inside their months. */
  predicate After(a: (int, int), b: (int, int)) {
    a.0 > b.0 || (a.0 == b.0 && a.1 > b.1)
  }

  /**
   * The `dateTo` test: `new Date(toYear, toMonth, 0)`, the last day of the
   * bound's month, against `new Date(pubYear, pubMonth - 1, day)`.
   */
  predicate ToOk(date: PubDate, bound: string)
    requires date.ValidDate? ==> IsCalendarDate(date.year, date.month, date.day)
  {
    var parts := BoundParts(bound);
    parts.Some? && ToOkParsed(date, ParseInt(parts.value.0), ParseInt(parts.value.1))
  }

  /** The `dateTo` test once the bound's year and month texts are read. */
  predicate ToOkParsed(date: PubDate, toYear: Option<int>, toMonth: Option<int>)
    requires date.ValidDate? ==> IsCalendarDate(date.year, date.month, date.day)
  {
    && date.ValidDate?
    && var toDate := LastDayBefore(toYear, toMonth);
       var pubDate := DayAt(MonthIndex(date.year, date.month - 1), date.day);
       !(toDate.Some? && After(pubDate, toDate.value))
  }

  /** The callback given to `publications.filter`. */
  predicate Keep(p: Publication, f: Query)
    requires WellFormed(p)
  {
    && !(IsSet(f.revista) && p.revista != f.revista)
    && !(IsSet(f.numero) && NumeroString(p.numero) != f.numero.value)
    && (IsSet(f.dateFrom) ==> FromOk(p.date, f.dateFrom.value))
    && (IsSet(f.dateTo) ==> ToOk(p.date, f.dateTo.value))
  }

  predicate AllWellFormed(pubs: seq<Publication>) {
    forall i :: 0 <= i < |pubs| ==> WellFormed(pubs[i])
  }

  /** `publications.filter(...)`. */
  function FilterPublications(pubs: seq<Publication>, f: Query): (r: seq<Publication>)
    requires AllWellFormed(pubs)
    ensures |r| <= |pubs|
    ensures forall p :: p in r <==> p in pubs && Keep(p, f)
  {
    if pubs == [] then []
    else
      var rest := FilterPublications(pubs[1..], f);
      assert forall p :: p in pubs <==> p == pubs[0] || p in pubs[1..];
      if Keep(pubs[0], f) then [pubs[0]] + rest else rest
  }

  /** The page's result for a query. */
  function Search(pubs: seq<Publication>, q: Query): seq<Publication>
    requires AllWellFormed(pubs)
  {
    FilterPublications(pubs, BuildFilters(q))
  }

  // ---------------------------------------------------------------------------
  // Properties

  /** `r` is `s` with some elements dropped and the rest in their order. */
  predicate IsSubsequence(r: seq<Publication>, s: seq<Publication>)
    decreases |s|
  {
    if r == [] then true
    else if s == [] then false
    else (r[0] == s[0] && IsSubsequence(r[1..], s[1..])) || IsSubsequence(r, s[1..])
  }

  /** The result keeps the publications' order. */
  lemma {:induction false} SearchIsSubsequence(pubs: seq<Publication>, f: Query)
    requires AllWellFormed(pubs)
    ensures IsSubsequence(FilterPublications(pubs, f), pubs)
  {
    if pubs != [] {
      SearchIsSubsequence(pubs[1..], f);
      var rest := FilterPublications(pubs[1..], f);
      if Keep(pubs[0], f) {
        assert ([pubs[0]] + rest)[1..] == rest;
      } else if rest != [] {
        assert IsSubsequence(rest, pubs[1..]);
      }
    }
  }

  /** A concatenation of well-formed lists is well formed. */
  lemma AllWellFormedConcat(a: seq<Publication>, b: seq<Publication>)
    requires AllWellFormed(a) && AllWellFormed(b)
    ensures AllWellFormed(a + b)
  {
    forall i | 0 <= i < |a + b| ensures WellFormed((a + b)[i]) {
      if i >= |a| {
        assert (a + b)[i] == b[i - |a|];
      }
    }
  }

  /**
   * `filter` works publication by publication and keeps every passing
   * occurrence: filtering a concatenation filters each part.
   */
  lemma {:induction false} FilterPublicationsDistributes(a: seq<Publication>, b: seq<Publication>, f: Query)
    requires AllWellFormed(a) && AllWellFormed(b)
    ensures AllWellFormed(a + b)
    ensures FilterPublications(a + b, f) == FilterPublications(a, f) + FilterPublications(b, f)
  {
    AllWellFormedConcat(a, b);
    if a == [] {
      assert a + b == b;
    } else {
      assert (a + b)[0] == a[0] && (a + b)[1..] == a[1..] + b;
      AllWellFormedConcat(a[1..], b);
      FilterPublicationsDistributes(a[1..], b, f);
      var restA, restB := FilterPublications(a[1..], f), FilterPublications(b, f);
      if Keep(a[0], f) {
        assert FilterPublications(a + b, f) == [a[0]] + (restA + restB);
        assert [a[0]] + (restA + restB) == ([a[0]] + restA) + restB;
      } else {
        assert FilterPublications(a + b, f) == restA + restB;
      }
    }
  }

  /** A single publication stays exactly when it passes. */
  lemma FilterPublicationsSingle(p: Publication, f: Query)
    requires WellFormed(p)
    ensures FilterPublications([p], f) == if Keep(p, f) then [p] else []
  {
    assert [p][1..] == [];
  }

  /** Each publication occurs in the result as often as in the input when it passes, and never otherwise. */
  lemma {:induction false} FilterPublicationsCount(pubs: seq<Publication>, f: Query, p: Publication)
    requires AllWellFormed(pubs)
    ensures multiset(FilterPublications(pubs, f))[p] == if p in pubs && Keep(p, f) then multiset(pubs)[p] else 0
  {
    if pubs != [] {
      FilterPublicationsCount(pubs[1..], f, p);
      assert pubs == [pubs[0]] + pubs[1..];
      assert multiset(pubs) == multiset([pubs[0]]) + multiset(pubs[1..]);
      var rest := FilterPublications(pubs[1..], f);
      if Keep(pubs[0], f) {
        assert multiset([pubs[0]] + rest) == multiset([pubs[0]]) + multiset(rest);
      }
    }
  }

  /** Dropping the empty parameters does not change which publications pass. */
  lemma FiltersKeepTheSamePublications(p: Publication, q: Query)
    requires WellFormed(p)
    ensures Keep(p, BuildFilters(q)) == Keep(p, q)
  {
  }

  /** With no parameter set, every publication is kept. */
  lemma {:induction false} NoFiltersKeepAll(pubs: seq<Publication>, q: Query)
    requires AllWellFormed(pubs)
    requires !IsSet(q.revista) && !IsSet(q.numero) && !IsSet(q.dateFrom) && !IsSet(q.dateTo)
    ensures Search(pubs, q) == pubs
  {
    if pubs != [] {
      NoFiltersKeepAll(pubs[1..], q);
      assert [pubs[0]] + pubs[1..] == pubs;
    }
  }

  /** A date bound without a year or a month part excludes every publication. */
  lemma {:induction false} MalformedBoundExcludesAll(pubs: seq<Publication>, q: Query)
    requires AllWellFormed(pubs)
    requires (IsSet(q.dateFrom) && BoundParts(q.dateFrom.value).None?)
             || (IsSet(q.dateTo) && BoundParts(q.dateTo.value).None?)
    ensures Search(pubs, q) == []
  {
    if pubs != [] {
      MalformedBoundExcludesAll(pubs[1..], q);
    }
  }

  /** With a date bound set, a publication without a usable date is excluded. */
  lemma DateBoundExcludesUndated(p: Publication, f: Query)
    requires WellFormed(p) && !p.date.ValidDate?
    requires IsSet(f.dateFrom) || IsSet(f.dateTo)
    ensures !Keep(p, f)
  {
  }

  /** A magazine filter keeps exactly that magazine; a number filter compares `String(número)`. */
  lemma RevistaAndNumeroMeaning(p: Publication, f: Query)
    requires WellFormed(p)
    ensures IsSet(f.revista) && Keep(p, f) ==> p.revista == f.revista
    ensures IsSet(f.numero) && Keep(p, f) ==> NumeroString(p.numero) == f.numero.value
    ensures !IsSet(f.dateFrom) && !IsSet(f.dateTo) ==>
              (Keep(p, f)
               <==> (IsSet(f.revista) ==> p.revista == f.revista)
                    && (IsSet(f.numero) ==> NumeroString(p.numero) == f.numero.value))
  {
  }

  /** A bound as the filter panel writes it: a year, `-`, and a two-digit month. */
  function BoundText(year: int, month: int): string
    requires 1 <= month <= 12 && year >= 0
  {
    IntToString(year) + "-" + MonthString(month)
  }

  lemma BoundTextParts(year: int, month: int)
    requires 1 <= month <= 12 && year >= 0
    ensures BoundParts(BoundText(year, month)) == Some((IntToString(year), MonthString(month)))
    ensures ParseInt(IntToString(year)) == Some(year) && ParseInt(MonthString(month)) == Some(month)
  {
    MonthStringParses(month);
    ParseIntOfIntToString(year);
    BoundTextSplits(year, month);
  }

  lemma BoundTextSplits(year: int, month: int)
    requires 1 <= month <= 12 && year >= 0
    ensures Split(BoundText(year, month), '-') == [IntToString(year), MonthString(month)]
  {
    MonthStringDigits(month);
    DigitsHaveNoDash(IntToString(year));
    DigitsHaveNoDash(MonthString(month));
    SplitTwo(IntToString(year), MonthString(month), '-');
  }

  lemma SplitTwo(a: string, b: string, sep: char)
    requires sep !in a && sep !in b
    ensures Split(a + [sep] + b, sep) == [a, b]
  {
    SplitAtSeparator(a, sep, b);
    SplitWithoutSeparator(b, sep);
  }

  lemma DigitsHaveNoDash(s: string)
    requires AllDigits(s)
    ensures '-' !in s
  {
    forall i | 0 <= i < |s| ensures s[i] != '-' {
      assert IsDigit(s[i]);
    }
  }

  /**
   * For dates and bound years from 100 on, a `dateFrom` bound whose parts
   * read as year `fy` and month `fm` keeps a calendar date exactly when its
   * (year, month) is not before (fy, fm).
   */
  lemma DateFromMeaning(y: int, m: int, d: int, bound: string, ys: string, ms: string, fy: int, fm: int)
    requires IsCalendarDate(y, m, d) && y >= 100
    requires BoundParts(bound) == Some((ys, ms))
    requires ParseInt(ys) == Some(fy) && ParseInt(ms) == Some(fm)
    requires 1 <= fm <= 12 && fy >= 100
    ensures FromOk(ValidDate(y, m, d), bound) <==> y > fy || (y == fy && m >= fm)
  {
    FromParsedMeaning(y, m, d, fy, fm);
  }

  /**
   * Read bound values keep a date from 100 on exactly when its (year, month)
   * is not before the bound's, with the bound's year as the constructor
   * takes it.
   */
  lemma FromParsedMeaning(y: int, m: int, d: int, fy: int, fm: int)
    requires IsCalendarDate(y, m, d) && y >= 100
    requires 1 <= fm <= 12
    ensures var boundYear := ConstructorYear(fy);
            FromOkParsed(ValidDate(y, m, d), Some(fy), Some(fm)) <==> y > boundYear || (y == boundYear && m >= fm)
  {
  }

  /**
   * For dates and bound years from 100 on, a `dateTo` bound whose parts read
   * as year `ty` and month `tm` keeps a calendar date exactly when its
   * (year, month) is not after (ty, tm): the whole month of the bound is
   * included.
   */
  lemma DateToMeaning(y: int, m: int, d: int, bound: string, ys: string, ms: string, ty: int, tm: int)
    requires IsCalendarDate(y, m, d) && y >= 100
    requires BoundParts(bound) == Some((ys, ms))
    requires ParseInt(ys) == Some(ty) && ParseInt(ms) == Some(tm)
    requires 1 <= tm <= 12 && ty >= 100
    ensures ToOk(ValidDate(y, m, d), bound) <==> y < ty || (y == ty && m <= tm)
  {
    ToParsedMeaning(y, m, d, ty, tm);
  }

  lemma ToParsedMeaning(y: int, m: int, d: int, ty: int, tm: int)
    requires IsCalendarDate(y, m, d) && y >= 100
    requires 1 <= tm <= 12 && ty >= 100
    ensures ToOkParsed(ValidDate(y, m, d), Some(ty), Some(tm)) <==> y < ty || (y == ty && m <= tm)
  {
    var k, tk := y * 12 + m - 1, ty * 12 + tm - 1;
    DayAtKeepsDate(y, m, d);
    MonthIndexParts(ty, tm);
    assert LastDayBefore(Some(ty), Some(tm)) == Some((tk, DaysInMonth(ty, tm)));
    assert DayAt(MonthIndex(y, m - 1), d) == (k, d);
    assert k == tk ==> y == ty && m == tm;
    assert After((k, d), (tk, DaysInMonth(ty, tm))) <==> k > tk;
  }

  /** With a year below 100 on either side, the constructor moves it to the 1900s before comparing. */
  lemma TwoDigitBoundYear(y: int, m: int, d: int, bound: string, ys: string, ms: string, fy: int, fm: int)
    requires IsCalendarDate(y, m, d) && y >= 100
    requires BoundParts(bound) == Some((ys, ms))
    requires ParseInt(ys) == Some(fy) && ParseInt(ms) == Some(fm)
    requires 1 <= fm <= 12 && 0 <= fy <= 99
    ensures FromOk(ValidDate(y, m, d), bound) <==> y > 1900 + fy || (y == 1900 + fy && m >= fm)
  {
    FromParsedMeaning(y, m, d, fy, fm);
  }
}
