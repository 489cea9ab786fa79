/**
 * A sea chart's display string and its text-search sort key. Geometry and
 * horizontal datum play no part in either and are not modelled.
 */
module Charts {
  import opened Wrappers
  import opened Strings

  /** `chartNumber` is never null; the other fields may be. */
  datatype Chart = Chart(chartNumber: string, internationalNumber: Option<int>, scale: Option<int>, name: Option<string>)

  /** `toFullChartNumber`: the chart number, followed by " (INT n)" when there is an international number */
  function FullChartNumber(c: Chart): (r: string)
    ensures StartsWith(r, c.chartNumber)
    ensures r == c.chartNumber <==> c.internationalNumber.None?
    ensures c.internationalNumber.Some? ==> r[|c.chartNumber|..] == " (INT " + IntToString(c.internationalNumber.value) + ")"
  {
    match c.internationalNumber
    case None => c.chartNumber
    case Some(n) =>
      var r := c.chartNumber + " (INT " + IntToString(n) + ")";
      assert r[..|c.chartNumber|] == c.chartNumber;
      assert |r| > |c.chartNumber|;
      r
  }

  /**
   * `computeSearchSortKey`: 0 for a null or blank term; otherwise minus the
   * index of the (lower-cased) term in the first field that contains it, taken
   * in the order international number, name (weight 5), chart number (weight 10).
   */
  function SearchSortKey(c: Chart, term: Option<string>): int {
    if term.None? || IsBlank(term.value) then 0
    else
      var t := ToLower(term.value);
      var indexChartNumber := IndexOf(ToLower(c.chartNumber), t);
      var indexInternationalNumber :=
        if c.internationalNumber.None? then -1 else IndexOf(IntToString(c.internationalNumber.value), t);
      var indexName := if c.name.None? then -1 else IndexOf(ToLower(c.name.value), t);
      var sortKey :=
        if indexInternationalNumber != -1 then indexInternationalNumber
        else if indexName != -1 then 5 * indexName
        else if indexChartNumber != -1 then 10 * indexChartNumber
        else 0;
      -sortKey
  }

  /** The key is never positive, and it is 0 for a blank term or when no field contains the term. */
  lemma SortKeyBounds(c: Chart, term: Option<string>)
    ensures SearchSortKey(c, term) <= 0
    ensures term.None? || IsBlank(term.value) ==> SearchSortKey(c, term) == 0
    ensures term.Some? && (
              var t := ToLower(term.value);
              && !Contains(ToLower(c.chartNumber), t)
              && (c.internationalNumber.None? || !Contains(IntToString(c.internationalNumber.value), t))
              && (c.name.None? || !Contains(ToLower(c.name.value), t)))
            ==> SearchSortKey(c, term) == 0
  {
  }

  /** A match in the international number decides the key, whatever the name and chart number hold. */
  lemma InternationalNumberFirst(c: Chart, term: string)
    requires !IsBlank(term) && c.internationalNumber.Some?
    requires Contains(IntToString(c.internationalNumber.value), ToLower(term))
    ensures SearchSortKey(c, Some(term)) == -IndexOf(IntToString(c.internationalNumber.value), ToLower(term))
  {
  }

  /** Then a name match, at five times its index. */
  lemma NameBeforeChartNumber(c: Chart, term: string)
    requires !IsBlank(term) && c.name.Some?
    requires c.internationalNumber.None? || !Contains(IntToString(c.internationalNumber.value), ToLower(term))
    requires Contains(ToLower(c.name.value), ToLower(term))
    ensures SearchSortKey(c, Some(term)) == -5 * IndexOf(ToLower(c.name.value), ToLower(term))
  {
  }

  /**
   * The chart number counts last: "101" starting the chart number is passed
   * over for its later occurrence in the name.
   */
  lemma ChartNumberRatesLowest()
    ensures SearchSortKey(Chart("101", None, None, Some("Skag101")), Some("101")) == -20
  {
    var name := ToLower("Skag101");
    assert name == "skag101";
    assert ToLower("101") == "101";
    assert OccursAt(name, "101", 4) by { assert name[4..7] == "101"; }
    forall i | 0 <= i < 4 ensures !OccursAt(name, "101", i) {
      assert name[i..i + 3][0] == name[i] != '1';
    }
    assert !IsBlank("101") by { assert !IsWhitespace("101"[0]); }
  }

  /** Danish letters fold too: the term "ærø" is found in the name "Lille Ærø" at index 6. */
  lemma DanishNameMatches()
    ensures SearchSortKey(Chart("X", None, None, Some("Lille \U{00C6}r\U{00F8}")), Some("\U{00E6}r\U{00F8}")) == -30
  {
    var name := ToLower("Lille \U{00C6}r\U{00F8}");
    var t := ToLower("\U{00E6}r\U{00F8}");
    assert t == "\U{00E6}r\U{00F8}";
    assert name == "lille \U{00E6}r\U{00F8}";
    assert OccursAt(name, t, 6) by { assert name[6..9] == t; }
    forall i | 0 <= i < 6 ensures !OccursAt(name, t, i) {
      assert name[i..i + 3][0] == name[i] != t[0];
    }
    assert !Contains(ToLower("X"), t) by { assert |ToLower("X")| < |t|; }
    assert !IsBlank(t) by { assert !IsWhitespace(t[0]); }
  }

  lemma ToLowerIdempotent(s: string)
    ensures ToLower(ToLower(s)) == ToLower(s)
  {
  }

  /** Blank stays blank: lower-casing touches letters only. */
  lemma ToLowerKeepsBlank(s: string)
    ensures IsBlank(ToLower(s)) <==> IsBlank(s)
  {
    if IsBlank(ToLower(s)) {
      forall i | 0 <= i < |s| ensures IsWhitespace(s[i]) {
        assert IsWhitespace(ToLower(s)[i]);
      }
    }
  }

  /** Matching is case-insensitive in the term, the chart number and the name. */
  lemma SortKeyCaseInsensitive(c: Chart, term: string)
    ensures SearchSortKey(c, Some(ToLower(term))) == SearchSortKey(c, Some(term))
    ensures var lowered := c.(chartNumber := ToLower(c.chartNumber),
                              name := if c.name.None? then None else Some(ToLower(c.name.value)));
      SearchSortKey(lowered, Some(term)) == SearchSortKey(c, Some(term))
  {
    ToLowerIdempotent(term);
    ToLowerKeepsBlank(term);
    ToLowerIdempotent(c.chartNumber);
    if c.name.Some? {
      ToLowerIdempotent(c.name.value);
    }
  }
}
