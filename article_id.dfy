/**
 * The article-id generator of the article creation wizard
 * (`useArticleId.ts`). An id has the form `article_<YY>_<ordinal>`, where
 * YY is the last two digits of the current year and the ordinal is one more
 * than the largest ordinal among the existing ids of that year, left-padded
 * with zeros to nine digits. The article listing (a network call) and the
 * current year are inputs.
 */
module ArticleId {
  import opened Wrappers
  import opened Text

  const IdPrefix: string := "article_"
  const OrdinalWidth: nat := 9

  /**
   * What `ArticleService.getAllArticles()` produced: an array of articles
   * (each given by its `id_article`, "" when the article or its id is
   * missing), something that is not an array, or an exception.
   */
  datatype Listing = Articles(ids: seq<string>) | NotAnArray | Failed

  /** `currentYear.toString().slice(-2)`: the year's last two digits, or its only one. */
  function YearSuffix(year: nat): (yy: string)
    ensures AllDigits(yy) && 1 <= |yy| <= 2
    ensures year < 10 ==> yy == [DigitChar(year)]
    ensures year >= 10 ==> yy == [DigitChar(year / 10 % 10), DigitChar(year % 10)]
    ensures DecimalValue(yy) == year % 100
  {
    var s := NatToDecimal(year);
    SuffixDigits(year);
    if |s| >= 2 then s[|s| - 2..] else s
  }

  /** The last two characters of a numeral of at least two digits are its tens and units digits. */
  lemma SuffixDigits(year: nat)
    ensures year < 10 ==> NatToDecimal(year) == [DigitChar(year)]
    ensures year >= 10 ==> |NatToDecimal(year)| >= 2
                           && NatToDecimal(year)[|NatToDecimal(year)| - 2..]
                              == [DigitChar(year / 10 % 10), DigitChar(year % 10)]
    ensures year < 10 ==> DecimalValue([DigitChar(year)]) == year % 100
    ensures year >= 10 ==> DecimalValue([DigitChar(year / 10 % 10), DigitChar(year % 10)]) == year % 100
  {
    if year >= 10 {
      var s := NatToDecimal(year);
      var t := NatToDecimal(year / 10);
      assert s == t + [DigitChar(year % 10)];
      LastDigit(year / 10);
      assert s[|s| - 2..] == [t[|t| - 1], DigitChar(year % 10)];
      TwoDigitValue(year / 10 % 10, year % 10);
      LastTwoDigitsArith(year);
    } else {
      assert [DigitChar(year)][..0] == [];
    }
  }

  /** The last character of a numeral is the units digit. */
  lemma LastDigit(n: nat)
    ensures NatToDecimal(n)[|NatToDecimal(n)| - 1] == DigitChar(n % 10)
  {
  }

  lemma TwoDigitValue(a: nat, b: nat)
    requires a < 10 && b < 10
    ensures DecimalValue([DigitChar(a), DigitChar(b)]) == a * 10 + b
  {
    var s := [DigitChar(a), DigitChar(b)];
    assert s[..1] == [DigitChar(a)];
    assert [DigitChar(a)][..0] == [];
    assert DecimalValue([DigitChar(a)]) == a;
  }

  lemma LastTwoDigitsArith(year: nat)
    ensures year % 100 == (year / 10 % 10) * 10 + year % 10
  {
    var k, r := year / 100, year % 100;
    assert year == 100 * k + r;
    assert year == 10 * (10 * k + r / 10) + r % 10;
    assert year / 10 == 10 * k + r / 10;
    assert year % 10 == r % 10;
    assert (10 * k + r / 10) % 10 == r / 10;
  }

  /** The id with a given ordinal: `article_${yy}_${String(n).padStart(9, '0')}`. */
  function IdFor(yy: string, n: nat): string {
    IdPrefix + yy + "_" + PadStart(NatToDecimal(n), OrdinalWidth, '0')
  }

  /** The id every fallback path produces. */
  function FirstId(year: nat): string {
    IdPrefix + YearSuffix(year) + "_000000001"
  }

  /** The filter's pattern `^article_${yy}_\d{9}$`. */
  predicate MatchesYear(id: string, yy: string) {
    && |id| == |IdPrefix| + |yy| + 1 + OrdinalWidth
    && id[..|IdPrefix|] == IdPrefix
    && id[|IdPrefix|..|IdPrefix| + |yy|] == yy
    && id[|IdPrefix| + |yy|] == '_'
    && AllDigits(id[|IdPrefix| + |yy| + 1..])
  }

  /** The ordinal the second pattern `^article_\d{2}_(\d{9})$` captures, parsed in base 10. */
  function OrdinalOf(id: string): Option<nat> {
    if && |id| == 20 && id[..8] == IdPrefix && IsDigit(id[8]) && IsDigit(id[9]) && id[10] == '_'
       && AllDigits(id[11..])
    then Some(DecimalValue(id[11..]))
    else None
  }

  /** `allArticles.filter(...)`: the ids of the given year, in listing order. */
  function CurrentYearIds(ids: seq<string>, yy: string): (r: seq<string>)
    ensures forall x :: x in r <==> x in ids && MatchesYear(x, yy)
  {
    if ids == [] then []
    else (if MatchesYear(ids[0], yy) then [ids[0]] else []) + CurrentYearIds(ids[1..], yy)
  }

  /** The largest captured ordinal, 0 when there is none (the `forEach` accumulator, read left to right). */
  function MaxOrdinal(ids: seq<string>): nat {
    if ids == [] then 0
    else
      var m := MaxOrdinal(ids[..|ids| - 1]);
      match OrdinalOf(ids[|ids| - 1])
      case Some(o) => if o > m then o else m
      case None => m
  }

  /** The filter keeps nothing when no id matches. */
  lemma {:induction false} NoMatchNoIds(ids: seq<string>, yy: string)
    requires forall e :: e in ids ==> !MatchesYear(e, yy)
    ensures CurrentYearIds(ids, yy) == []
  {
    if ids != [] {
      assert forall e :: e in ids[1..] ==> e in ids;
      NoMatchNoIds(ids[1..], yy);
    }
  }

  /** `MaxOrdinal` is the maximum: no captured ordinal exceeds it, and it is 0 or one of them. */
  lemma {:induction false} MaxOrdinalIsMaximum(ids: seq<string>)
    ensures forall i :: 0 <= i < |ids| && OrdinalOf(ids[i]).Some? ==> OrdinalOf(ids[i]).value <= MaxOrdinal(ids)
    ensures MaxOrdinal(ids) == 0 || exists i :: 0 <= i < |ids| && OrdinalOf(ids[i]) == Some(MaxOrdinal(ids))
  {
    if ids != [] {
      var init := ids[..|ids| - 1];
      MaxOrdinalIsMaximum(init);
      assert forall i :: 0 <= i < |init| ==> ids[i] == init[i];
    }
  }

  /** The `forEach` loop over the current year's ids. */
  method ScanMaxOrdinal(current: seq<string>) returns (maxOrdinal: nat)
    ensures maxOrdinal == MaxOrdinal(current)
  {
    maxOrdinal := 0;
    var i := 0;
    while i < |current|
      invariant 0 <= i <= |current|
      invariant maxOrdinal == MaxOrdinal(current[..i])
    {
      assert current[..i + 1][..i] == current[..i];
      var ordinal := OrdinalOf(current[i]);
      if ordinal.Some? && ordinal.value > maxOrdinal {
        maxOrdinal := ordinal.value;
      }
      i := i + 1;
    }
    assert current[..i] == current;
  }

  /** The id `generateArticleId` returns for a listing. */
  function NextId(listing: Listing, year: nat): string {
    if listing.Articles? then
      var yy := YearSuffix(year);
      IdFor(yy, MaxOrdinal(CurrentYearIds(listing.ids, yy)) + 1)
    else FirstId(year)
  }

  /** `generateArticleId`. */
  method GenerateArticleId(listing: Listing, year: nat) returns (id: string)
    ensures id == NextId(listing, year)
  {
    if !listing.Articles? {
      return FirstId(year);
    }
    var yy := YearSuffix(year);
    var current := CurrentYearIds(listing.ids, yy);
    var maxOrdinal := ScanMaxOrdinal(current);
    var nextOrdinal := maxOrdinal + 1;
    var ordinalString := PadStart(NatToDecimal(nextOrdinal), OrdinalWidth, '0');
    id := IdPrefix + yy + "_" + ordinalString;
  }

  // ---------------------------------------------------------------------------
  // Properties of the generated id

  /**
   * Every id has the form `article_<YY>_<digits>`: at least nine digits, whose
   * value is the ordinal; exactly nine while the ordinal is below 10^9
   * (`padStart` pads but never truncates).
   */
  lemma IdForFormat(yy: string, n: nat)
    ensures var id := IdFor(yy, n);
            var digits := id[|IdPrefix| + |yy| + 1..];
            && id[..|IdPrefix| + |yy| + 1] == IdPrefix + yy + "_"
            && AllDigits(digits) && DecimalValue(digits) == n
            && |digits| >= OrdinalWidth
            && (|digits| == OrdinalWidth <==> n < Pow10(OrdinalWidth))
  {
    var dec := NatToDecimal(n);
    var padded := PadStart(dec, OrdinalWidth, '0');
    var id := IdFor(yy, n);
    assert id == (IdPrefix + yy + "_") + padded;
    assert id[|IdPrefix| + |yy| + 1..] == padded;
    DecimalRoundTrip(n);
    DecimalLength(n, OrdinalWidth);
    if |dec| < OrdinalWidth {
      LeadingZerosValue(OrdinalWidth - |dec|, dec);
    }
  }

  /** The year suffix has two digits from year 10 on. */
  lemma TwoDigitSuffix(year: nat)
    requires year >= 10
    ensures |YearSuffix(year)| == 2
  {
    DecimalLength(year, 1);
  }

  /**
   * The generated ordinal exceeds every ordinal of the year's existing ids,
   * so the new id differs from every existing id of that year.
   */
  lemma GeneratedIdIsFresh(ids: seq<string>, year: nat)
    requires year >= 10
    ensures var yy := YearSuffix(year);
            var id := IdFor(yy, MaxOrdinal(CurrentYearIds(ids, yy)) + 1);
            forall e :: e in ids && MatchesYear(e, yy) ==> e != id
  {
    var yy := YearSuffix(year);
    TwoDigitSuffix(year);
    var current := CurrentYearIds(ids, yy);
    forall e | e in ids && MatchesYear(e, yy) ensures e != IdFor(yy, MaxOrdinal(current) + 1) {
      var i :| 0 <= i < |current| && current[i] == e;
      NotTheNextId(current, yy, i);
    }
  }

  /** An id of the year among `current` is not the one built from their largest ordinal plus one. */
  lemma NotTheNextId(current: seq<string>, yy: string, i: nat)
    requires |yy| == 2 && AllDigits(yy) && i < |current| && MatchesYear(current[i], yy)
    ensures current[i] != IdFor(yy, MaxOrdinal(current) + 1)
  {
    var e := current[i];
    var m := MaxOrdinal(current);
    YearIdOrdinal(e, yy);
    assert DecimalValue(e[11..]) <= m by { MaxOrdinalIsMaximum(current); }
    IdDiffersFromSmallerOrdinal(e, yy, m + 1);
  }

  /** An id of a two-digit year is captured by the second pattern, with its last nine digits as ordinal. */
  lemma YearIdOrdinal(e: string, yy: string)
    requires |yy| == 2 && AllDigits(yy) && MatchesYear(e, yy)
    ensures OrdinalOf(e) == Some(DecimalValue(e[11..]))
  {
    assert e[8..10] == yy;
    assert e[8] == yy[0] && e[9] == yy[1];
  }

  /** An id of the year whose ordinal is below `n` is not `IdFor(yy, n)`. */
  lemma IdDiffersFromSmallerOrdinal(e: string, yy: string, n: nat)
    requires |yy| == 2 && MatchesYear(e, yy) && OrdinalOf(e) == Some(DecimalValue(e[11..]))
    requires DecimalValue(e[11..]) < n
    ensures e != IdFor(yy, n)
  {
    IdForFormat(yy, n);
  }

  /** With no id of the current year (in particular, no article at all) the result is ordinal 1. */
  lemma NoMatchGivesFirstId(ids: seq<string>, year: nat)
    requires forall e :: e in ids ==> !MatchesYear(e, YearSuffix(year))
    ensures IdFor(YearSuffix(year), MaxOrdinal(CurrentYearIds(ids, YearSuffix(year))) + 1) == FirstId(year)
  {
    NoMatchNoIds(ids, YearSuffix(year));
    assert PadStart(NatToDecimal(1), OrdinalWidth, '0') == "000000001";
  }

  /** No generated id is blank, so the hook's blank-id fallback never fires. */
  lemma GeneratedIdNotBlank(listing: Listing, year: nat)
    ensures !IsBlank(NextId(listing, year))
  {
    var id := NextId(listing, year);
    BlankIffAllWhitespace(id);
    assert id[0] == 'a';
  }

  /** The `useArticleId` hook's state: the id shown in the form and whether it is still being generated. */
  class ArticleIdHook {
    var idArticle: string
    var isGeneratingId: bool

    constructor ()
      ensures idArticle == "" && isGeneratingId
    {
      idArticle := "";
      isGeneratingId := true;
    }

    /** `loadArticleId`: generate, keep a non-blank result, else fall back; generation is over afterwards. */
    method LoadArticleId(listing: Listing, year: nat)
      modifies this
      ensures !isGeneratingId
      ensures idArticle == if IsBlank(NextId(listing, year)) then FirstId(year) else NextId(listing, year)
    {
      isGeneratingId := true;
      var generatedId := GenerateArticleId(listing, year);
      if generatedId != "" && !IsBlank(generatedId) {
        idArticle := generatedId;
      } else {
        idArticle := FirstId(year);
      }
      isGeneratingId := false;
    }
  }
}
