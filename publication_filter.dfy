/**
 * The publication filter panel (`PublicationFilter.tsx`). Seven pieces of
 * state: whether the panel is open, and the six selected values (empty when
 * unset). From them it builds a parameter string `revista__R&número__N&
 * dateFrom__Y-M&dateTo__Y-M` (each entry only when its values are set) and
 * the link to the search page. The choices offered in the selects are the
 * distinct months, years, magazines and numbers found in the publications,
 * sorted.
 */
module PublicationFilter {
  import opened Wrappers
  import opened Text
  import opened Publications
  import UriEncode

  const SearchPrefix := "/logged/pages/publications/search/"
  const RevistaKey := "revista__"
  const NumeroKey := "n\U{00FA}mero__"
  const DateFromKey := "dateFrom__"
  const DateToKey := "dateTo__"

  /** The entry for a date bound: year, `-`, month. */
  function DateEntry(key: string, year: string, month: string): string {
    key + year + "-" + month
  }

  /** Which of the four keys an entry starts with, 0 to 3 in the order they are pushed; 4 for none. */
  function KeyRank(entry: string): nat {
    if RevistaKey <= entry then 0
    else if NumeroKey <= entry then 1
    else if DateFromKey <= entry then 2
    else if DateToKey <= entry then 3
    else 4
  }

  /** The entries `buildSearchParams` pushes, in order. */
  function ParamList(revista: string, numero: string, fromMonth: string, fromYear: string,
                     toMonth: string, toYear: string): (ps: seq<string>)
    ensures |ps| <= 4
    ensures forall i :: 0 <= i < |ps| ==> ps[i] != ""
    ensures forall i, j :: 0 <= i < j < |ps| ==> KeyRank(ps[i]) < KeyRank(ps[j]) < 4
  {
    KeysAreDistinct(revista, numero, fromYear, fromMonth, toYear, toMonth);
    (if revista != "" then [RevistaKey + revista] else [])
    + (if numero != "" then [NumeroKey + numero] else [])
    + (if fromMonth != "" && fromYear != "" then [DateEntry(DateFromKey, fromYear, fromMonth)] else [])
    + (if toMonth != "" && toYear != "" then [DateEntry(DateToKey, toYear, toMonth)] else [])
  }

  /** Each entry is recognised by its own key and by no other. */
  lemma KeysAreDistinct(revista: string, numero: string, fromYear: string, fromMonth: string,
                        toYear: string, toMonth: string)
    ensures KeyRank(RevistaKey + revista) == 0
    ensures KeyRank(NumeroKey + numero) == 1
    ensures KeyRank(DateEntry(DateFromKey, fromYear, fromMonth)) == 2
    ensures KeyRank(DateEntry(DateToKey, toYear, toMonth)) == 3
  {
    assert RevistaKey <= RevistaKey + revista;
    assert NumeroKey <= NumeroKey + numero;
    var from := DateEntry(DateFromKey, fromYear, fromMonth);
    var to := DateEntry(DateToKey, toYear, toMonth);
    assert from[0] == 'd' && from[4] == 'F';
    assert to[0] == 'd' && to[4] == 'T';
    assert (NumeroKey + numero)[0] == 'n';
    assert DateFromKey <= from;
    assert DateToKey <= to;
  }

  /** `canFilter`: a magazine, a number, or a complete date bound is selected. */
  predicate CanFilter(revista: string, numero: string, fromMonth: string, fromYear: string,
                      toMonth: string, toYear: string) {
    revista != "" || numero != "" || (fromMonth != "" && fromYear != "") || (toMonth != "" && toYear != "")
  }

  /** `hasAnyFilter`: any of the six values is selected. */
  predicate HasAnyFilter(revista: string, numero: string, fromMonth: string, fromYear: string,
                         toMonth: string, toYear: string) {
    revista != "" || numero != "" || fromMonth != "" || fromYear != "" || toMonth != "" || toYear != ""
  }

  /**
   * The Filter link is offered exactly when there is something to search
   * for: `canFilter` holds if and only if the parameter string is non-empty.
   */
  lemma CanFilterIffParams(revista: string, numero: string, fromMonth: string, fromYear: string,
                           toMonth: string, toYear: string)
    ensures CanFilter(revista, numero, fromMonth, fromYear, toMonth, toYear)
            <==> Join(ParamList(revista, numero, fromMonth, fromYear, toMonth, toYear), "&") != ""
  {
    JoinEmptyIff(ParamList(revista, numero, fromMonth, fromYear, toMonth, toYear), "&");
  }

  /** Every state that can filter has some value selected, but half a date bound is a value that cannot filter. */
  lemma CanFilterNeedsAnyFilter(revista: string, numero: string, fromMonth: string, fromYear: string,
                                toMonth: string, toYear: string)
    ensures CanFilter(revista, numero, fromMonth, fromYear, toMonth, toYear)
            ==> HasAnyFilter(revista, numero, fromMonth, fromYear, toMonth, toYear)
    ensures fromMonth != "" && fromYear == "" && revista == "" && numero == "" && toYear == ""
            ==> HasAnyFilter(revista, numero, fromMonth, fromYear, toMonth, toYear)
                && !CanFilter(revista, numero, fromMonth, fromYear, toMonth, toYear)
  {
  }

  /** Whether the entry of the given rank is pushed. */
  predicate Selected(rank: nat, revista: string, numero: string, fromMonth: string, fromYear: string,
                     toMonth: string, toYear: string) {
    if rank == 0 then revista != ""
    else if rank == 1 then numero != ""
    else if rank == 2 then fromMonth != "" && fromYear != ""
    else rank == 3 && toMonth != "" && toYear != ""
  }

  /** The entry of the given rank. */
  function EntryOfRank(rank: nat, revista: string, numero: string, fromMonth: string, fromYear: string,
                       toMonth: string, toYear: string): string {
    if rank == 0 then RevistaKey + revista
    else if rank == 1 then NumeroKey + numero
    else if rank == 2 then DateEntry(DateFromKey, fromYear, fromMonth)
    else DateEntry(DateToKey, toYear, toMonth)
  }

  /**
   * Each entry appears exactly when its values are set (a date bound only
   * when both its month and its year are), and then it is the entry built
   * from those values.
   */
  lemma EntryPresentIffSelected(revista: string, numero: string, fromMonth: string, fromYear: string,
                                toMonth: string, toYear: string, rank: nat)
    requires rank < 4
    ensures var ps := ParamList(revista, numero, fromMonth, fromYear, toMonth, toYear);
            && ((exists i :: 0 <= i < |ps| && KeyRank(ps[i]) == rank)
                <==> Selected(rank, revista, numero, fromMonth, fromYear, toMonth, toYear))
            && (forall i :: 0 <= i < |ps| && KeyRank(ps[i]) == rank
                  ==> ps[i] == EntryOfRank(rank, revista, numero, fromMonth, fromYear, toMonth, toYear))
  {
    var ps := ParamList(revista, numero, fromMonth, fromYear, toMonth, toYear);
    KeysAreDistinct(revista, numero, fromYear, fromMonth, toYear, toMonth);
    var r := if revista != "" then [RevistaKey + revista] else [];
    var n := if numero != "" then [NumeroKey + numero] else [];
    var f := if fromMonth != "" && fromYear != "" then [DateEntry(DateFromKey, fromYear, fromMonth)] else [];
    var t := if toMonth != "" && toYear != "" then [DateEntry(DateToKey, toYear, toMonth)] else [];
    assert ps == r + n + f + t;
    var e := EntryOfRank(rank, revista, numero, fromMonth, fromYear, toMonth, toYear);
    forall i | 0 <= i < |ps| && KeyRank(ps[i]) == rank
      ensures Selected(rank, revista, numero, fromMonth, fromYear, toMonth, toYear) && ps[i] == e
    {
      assert ps[i] in r || ps[i] in n || ps[i] in f || ps[i] in t;
    }
    if Selected(rank, revista, numero, fromMonth, fromYear, toMonth, toYear) {
      assert e in r || e in n || e in f || e in t;
      assert e in ps;
      assert KeyRank(e) == rank;
    }
  }

  /**
   * When no selected value contains `&`, splitting the parameter string on
   * `&` gives the entries back.
   */
  lemma ParamsSplitBack(revista: string, numero: string, fromMonth: string, fromYear: string,
                        toMonth: string, toYear: string)
    requires CanFilter(revista, numero, fromMonth, fromYear, toMonth, toYear)
    requires '&' !in revista && '&' !in numero && '&' !in fromMonth && '&' !in fromYear
    requires '&' !in toMonth && '&' !in toYear
    ensures var ps := ParamList(revista, numero, fromMonth, fromYear, toMonth, toYear);
            Split(Join(ps, "&"), '&') == ps
  {
    var ps := ParamList(revista, numero, fromMonth, fromYear, toMonth, toYear);
    CanFilterIffParams(revista, numero, fromMonth, fromYear, toMonth, toYear);
    forall i | 0 <= i < |ps| ensures '&' !in ps[i] {
      AmpersandFreeEntries(revista, numero, fromMonth, fromYear, toMonth, toYear, i);
    }
    JoinSplit(ps, '&');
  }

  lemma AmpersandFreeEntries(revista: string, numero: string, fromMonth: string, fromYear: string,
                             toMonth: string, toYear: string, i: nat)
    requires '&' !in revista && '&' !in numero && '&' !in fromMonth && '&' !in fromYear
    requires '&' !in toMonth && '&' !in toYear
    requires i < |ParamList(revista, numero, fromMonth, fromYear, toMonth, toYear)|
    ensures '&' !in ParamList(revista, numero, fromMonth, fromYear, toMonth, toYear)[i]
  {
    var ps := ParamList(revista, numero, fromMonth, fromYear, toMonth, toYear);
    var candidates := [RevistaKey + revista, NumeroKey + numero, DateEntry(DateFromKey, fromYear, fromMonth),
                       DateEntry(DateToKey, toYear, toMonth)];
    forall k | 0 <= k < 4 ensures '&' !in candidates[k] {
      assert '&' !in RevistaKey && '&' !in NumeroKey && '&' !in DateFromKey && '&' !in DateToKey;
    }
    assert ps[i] in candidates;
  }

  /** The link for a parameter string: `#` for none, else the search path and the encoded string. */
  function FilterHref(params: string): string {
    if params != "" then SearchPrefix + UriEncode.Encode(params) else "#"
  }

  // ---------------------------------------------------------------------------
  // The choices offered: distinct values, sorted

  /** The month a publication's date contributes, as `getMonth() + 1` padded to two digits; `NaN` for an unparsable date. */
  function MonthOf(p: Publication): Option<string> {
    match p.date
    case NoDate => None
    case InvalidDate => Some("NaN")
    case ValidDate(y, m, d) => Some(MonthString(m))
  }

  /** The year a publication's date contributes, `String(getFullYear())`. */
  function YearOf(p: Publication): Option<string> {
    match p.date
    case NoDate => None
    case InvalidDate => Some("NaN")
    case ValidDate(y, m, d) => Some(IntToString(y))
  }

  /** Only a non-empty magazine name is collected. */
  function RevistaOf(p: Publication): Option<string> {
    if p.revista.Some? && p.revista.value != "" then p.revista else None
  }

  /** Every number that is not `undefined`, as `String(número)`. */
  function NumeroOf(p: Publication): Option<string> {
    if p.numero.NoNumero? then None else Some(NumeroString(p.numero))
  }

  /** The set of values `pick` gives for the publications. */
  function Collect(pubs: seq<Publication>, pick: Publication -> Option<string>): (vs: set<string>)
    ensures forall v :: v in vs <==> exists i :: 0 <= i < |pubs| && pick(pubs[i]) == Some(v)
  {
    if pubs == [] then {}
    else
      var last := pubs[|pubs| - 1];
      var rest := Collect(pubs[..|pubs| - 1], pick);
      assert forall i :: 0 <= i < |pubs| - 1 ==> pubs[..|pubs| - 1][i] == pubs[i];
      rest + (if pick(last).Some? then {pick(last).value} else {})
  }

  /** One more publication adds at most its own value. */
  lemma CollectStep(pubs: seq<Publication>, k: nat, pick: Publication -> Option<string>)
    requires k < |pubs|
    ensures Collect(pubs[..k + 1], pick)
            == Collect(pubs[..k], pick) + (if pick(pubs[k]).Some? then {pick(pubs[k]).value} else {})
  {
    assert pubs[..k + 1][..k] == pubs[..k];
  }

  /** A sorted list with `x` added where it belongs, unless it is there already. */
  function InsertSorted(xs: seq<string>, x: string): (r: seq<string>)
    requires StrictlySorted(xs)
    ensures StrictlySorted(r)
    ensures forall v :: v in r <==> v in xs || v == x
    decreases |xs|
  {
    if xs == [] then [x]
    else if x == xs[0] then xs
    else if StrLess(x, xs[0]) then
      LessThanSorted(x, xs);
      [x] + xs
    else
      StrLessTrichotomy(x, xs[0]);
      var tail := InsertSorted(xs[1..], x);
      assert forall v :: v in tail ==> StrLess(xs[0], v);
      [xs[0]] + tail
  }

  lemma LessThanSorted(x: string, xs: seq<string>)
    requires StrictlySorted(xs) && xs != [] && StrLess(x, xs[0])
    ensures StrictlySorted([x] + xs)
  {
    forall j | 0 < j < |xs| ensures StrLess(x, xs[j]) {
      StrLessTransitive(x, xs[0], xs[j]);
    }
  }

  /** The sorted list the one pass has built after the first `k` publications. */
  function SortedValues(pubs: seq<Publication>, k: nat, pick: Publication -> Option<string>): (xs: seq<string>)
    requires k <= |pubs|
    ensures StrictlySorted(xs)
  {
    if k == 0 then []
    else
      var before := SortedValues(pubs, k - 1, pick);
      if pick(pubs[k - 1]).Some? then InsertSorted(before, pick(pubs[k - 1]).value) else before
  }

  /** The pass collects exactly the values of the publications seen so far. */
  lemma {:induction false} SortedValuesCollect(pubs: seq<Publication>, k: nat, pick: Publication -> Option<string>)
    requires k <= |pubs|
    ensures forall v :: v in SortedValues(pubs, k, pick) <==> v in Collect(pubs[..k], pick)
  {
    if k > 0 {
      SortedValuesCollect(pubs, k - 1, pick);
      CollectStep(pubs, k - 1, pick);
    }
  }

  /** After the whole pass, the list holds exactly the collected values. */
  lemma SortedValuesOfAll(pubs: seq<Publication>, pick: Publication -> Option<string>)
    ensures forall v :: v in SortedValues(pubs, |pubs|, pick) <==> v in Collect(pubs, pick)
  {
    SortedValuesCollect(pubs, |pubs|, pick);
    assert pubs[..|pubs|] == pubs;
  }

  /** Two strictly sorted lists with the same elements are equal: the sorted list of a set is unique. */
  lemma {:induction false} SortedIsUnique(a: seq<string>, b: seq<string>)
    requires StrictlySorted(a) && StrictlySorted(b)
    requires forall v :: v in a <==> v in b
    ensures a == b
  {
    if a == [] || b == [] {
      NothingInEmptyOnly(a);
      NothingInEmptyOnly(b);
    } else {
      HeadIsLeast(a, b[0]);
      HeadIsLeast(b, a[0]);
      StrLessNotBoth(a[0], b[0]);
      assert a[0] == b[0];
      assert a == [a[0]] + a[1..] && b == [b[0]] + b[1..];
      forall v ensures v in a[1..] <==> v in b[1..] {
        TailAboveHead(a, v);
        TailAboveHead(b, v);
      }
      SortedIsUnique(a[1..], b[1..]);
    }
  }

  lemma NothingInEmptyOnly(a: seq<string>)
    ensures (forall v :: v !in a) ==> a == []
  {
    if a != [] {
      assert a[0] in a;
    }
  }

  lemma HeadIsLeast(a: seq<string>, v: string)
    requires StrictlySorted(a) && v in a
    ensures v == a[0] || StrLess(a[0], v)
  {
    var j :| 0 <= j < |a| && a[j] == v;
    if j > 0 {
      assert StrLess(a[0], a[j]);
    }
  }

  lemma TailAboveHead(a: seq<string>, v: string)
    requires StrictlySorted(a) && a != []
    ensures v in a[1..] <==> v in a && v != a[0]
  {
    assert a == [a[0]] + a[1..];
    if v in a[1..] {
      var j :| 1 <= j < |a| && a[j] == v;
      assert StrLess(a[0], a[j]);
      StrLessIrreflexive(a[0]);
    }
  }

  lemma StrLessNotBoth(x: string, y: string)
    ensures !(StrLess(x, y) && StrLess(y, x))
  {
    if StrLess(x, y) {
      StrLessAsymmetric(x, y);
    }
  }

  lemma ReverseSorted(s: seq<string>)
    requires StrictlySorted(s)
    ensures StrictlyDescending(Reverse(s))
    ensures forall v :: v in Reverse(s) <==> v in s
  {
    var r := Reverse(s);
    forall v | v in s ensures v in r {
      var i :| 0 <= i < |s| && s[i] == v;
      assert r[|s| - 1 - i] == v;
    }
  }

  /** The months of well-formed dates are the two-digit numerals `01` to `12`. */
  lemma MonthValuesAreTwoDigits(pubs: seq<Publication>, v: string)
    requires forall i :: 0 <= i < |pubs| ==> WellFormed(pubs[i]) && !pubs[i].date.InvalidDate?
    requires v in Collect(pubs, MonthOf)
    ensures |v| == 2 && AllDigits(v) && 1 <= DecimalValue(v) <= 12
  {
    var i :| 0 <= i < |pubs| && MonthOf(pubs[i]) == Some(v);
    MonthStringDigits(pubs[i].date.month);
  }

  class PublicationFilterState {
    var isFilterOpen: bool
    var revista: string
    var numero: string
    var dateFromMonth: string
    var dateFromYear: string
    var dateToMonth: string
    var dateToYear: string

    constructor ()
      ensures !isFilterOpen
      ensures revista == "" && numero == "" && dateFromMonth == "" && dateFromYear == ""
      ensures dateToMonth == "" && dateToYear == ""
    {
      isFilterOpen := false;
      revista, numero := "", "";
      dateFromMonth, dateFromYear, dateToMonth, dateToYear := "", "", "", "";
    }

    /** `toggleFilter`: flips the panel; the selections stay. */
    method ToggleFilter()
      modifies this
      ensures isFilterOpen == !old(isFilterOpen)
      ensures revista == old(revista) && numero == old(numero)
      ensures dateFromMonth == old(dateFromMonth) && dateFromYear == old(dateFromYear)
      ensures dateToMonth == old(dateToMonth) && dateToYear == old(dateToYear)
    {
      isFilterOpen := !isFilterOpen;
    }

    /** `buildSearchParams`: the entries for the set values, in order, joined with `&`. */
    method BuildSearchParams() returns (params: string)
      ensures params == Join(ParamList(revista, numero, dateFromMonth, dateFromYear, dateToMonth, dateToYear), "&")
      ensures params != "" <==> CanFilter(revista, numero, dateFromMonth, dateFromYear, dateToMonth, dateToYear)
    {
      var entries: seq<string> := [];
      if revista != "" {
        entries := entries + [RevistaKey + revista];
      }
      if numero != "" {
        entries := entries + [NumeroKey + numero];
      }
      if dateFromMonth != "" && dateFromYear != "" {
        entries := entries + [DateEntry(DateFromKey, dateFromYear, dateFromMonth)];
      }
      if dateToMonth != "" && dateToYear != "" {
        entries := entries + [DateEntry(DateToKey, dateToYear, dateToMonth)];
      }
      assert entries == ParamList(revista, numero, dateFromMonth, dateFromYear, dateToMonth, dateToYear);
      params := Join(entries, "&");
      CanFilterIffParams(revista, numero, dateFromMonth, dateFromYear, dateToMonth, dateToYear);
    }

    /**
     * `getFilterHref`: `#` exactly when nothing can be filtered; otherwise
     * the search path followed by an encoding that decodes back to the
     * parameter string.
     */
    method GetFilterHref() returns (href: string)
      ensures href == "#" <==> !CanFilter(revista, numero, dateFromMonth, dateFromYear, dateToMonth, dateToYear)
      ensures href != "#" ==>
                SearchPrefix <= href
                && UriEncode.Decode(href[|SearchPrefix|..])
                   == Some(Join(ParamList(revista, numero, dateFromMonth, dateFromYear, dateToMonth, dateToYear), "&"))
      ensures href == FilterHref(Join(ParamList(revista, numero, dateFromMonth, dateFromYear, dateToMonth, dateToYear), "&"))
    {
      var searchParams := BuildSearchParams();
      if searchParams != "" {
        href := SearchPrefix + UriEncode.Encode(searchParams);
        UriEncode.DecodeEncode(searchParams);
        assert href[|SearchPrefix|..] == UriEncode.Encode(searchParams);
      } else {
        href := "#";
      }
    }
  }

  /**
   * The choices the selects offer: the distinct months (ascending), years
   * (descending), magazines and numbers (ascending) of the publications,
   * collected in one pass.
   */
  method UniqueValues(pubs: seq<Publication>)
    returns (months: seq<string>, years: seq<string>, revistas: seq<string>, numeros: seq<string>)
    ensures StrictlySorted(months) && forall v :: v in months <==> v in Collect(pubs, MonthOf)
    ensures StrictlyDescending(years) && forall v :: v in years <==> v in Collect(pubs, YearOf)
    ensures StrictlySorted(revistas) && forall v :: v in revistas <==> v in Collect(pubs, RevistaOf)
    ensures StrictlySorted(numeros) && forall v :: v in numeros <==> v in Collect(pubs, NumeroOf)
  {
    var ascendingYears: seq<string> := [];
    months, revistas, numeros := [], [], [];
    var k := 0;
    while k < |pubs|
      invariant 0 <= k <= |pubs|
      invariant months == SortedValues(pubs, k, MonthOf)
      invariant ascendingYears == SortedValues(pubs, k, YearOf)
      invariant revistas == SortedValues(pubs, k, RevistaOf)
      invariant numeros == SortedValues(pubs, k, NumeroOf)
    {
      var p := pubs[k];
      if p.date != NoDate {
        months := InsertSorted(months, MonthOf(p).value);
        ascendingYears := InsertSorted(ascendingYears, YearOf(p).value);
      }
      if p.revista.Some? && p.revista.value != "" {
        revistas := InsertSorted(revistas, p.revista.value);
      }
      if !p.numero.NoNumero? {
        numeros := InsertSorted(numeros, NumeroString(p.numero));
      }
      k := k + 1;
    }
    SortedValuesOfAll(pubs, MonthOf);
    SortedValuesOfAll(pubs, YearOf);
    SortedValuesOfAll(pubs, RevistaOf);
    SortedValuesOfAll(pubs, NumeroOf);
    ReverseSorted(ascendingYears);
    years := Reverse(ascendingYears);
  }
}
