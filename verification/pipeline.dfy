/**
 The whole `.then` callback of script.js up to the chart: convert both
 loaded tables, then left-join the GDP table against the life-expectancy table.
 */
module Pipeline {
  import opened Options
  import opened Rows
  import opened Join

  /** `t[k]` is the first loaded row whose key is `key`. */
  ghost predicate IsFirstCsvMatch(t: seq<CsvRow>, key: Option<string>, k: int) {
    && 0 <= k < |t|
    && CsvCountry(t[k]) == key
    && forall j :: 0 <= j < k ==> CsvCountry(t[j]) != key
  }

  /**
   The joined records, stated against the loaded tables: one per GDP row in
   order, carrying its converted row, and the converted first loaded
   life-expectancy row with the same key, or nothing when no row has it.
   */
  function MergeTables(parse: string -> Num, gdpCsv: seq<CsvRow>, lifeCsv: seq<CsvRow>): (m: seq<Merged>)
    ensures |m| == |gdpCsv|
    ensures forall i :: 0 <= i < |gdpCsv| ==>
              m[i].country == CsvCountry(gdpCsv[i]) && m[i].gdp == ConvertRow(parse, gdpCsv[i])
    ensures forall i, k :: 0 <= i < |gdpCsv| && IsFirstCsvMatch(lifeCsv, CsvCountry(gdpCsv[i]), k) ==>
              m[i].lifeExpectancy == Some(ConvertRow(parse, lifeCsv[k]))
    ensures forall i :: 0 <= i < |gdpCsv| ==>
              (m[i].lifeExpectancy.None? <==>
               forall k :: 0 <= k < |lifeCsv| ==> CsvCountry(lifeCsv[k]) != CsvCountry(gdpCsv[i]))
  {
    var gdp := ConvertTable(parse, gdpCsv);
    var life := ConvertTable(parse, lifeCsv);
    var m := LeftJoin(gdp, life);
    forall i, k | 0 <= i < |gdpCsv| && IsFirstCsvMatch(lifeCsv, CsvCountry(gdpCsv[i]), k)
      ensures IsFirstMatch(life, gdp[i].country, k)
    {
    }
    forall i | 0 <= i < |gdpCsv|
      ensures HasMatch(life, gdp[i].country) <==>
              exists k :: 0 <= k < |lifeCsv| && CsvCountry(lifeCsv[k]) == CsvCountry(gdpCsv[i])
    {
    }
    m
  }

  /** The text-to-number function decides no match: which records have a partner does not depend on it. */
  lemma MatchesIndependentOfParse(p: string -> Num, q: string -> Num, gdpCsv: seq<CsvRow>, lifeCsv: seq<CsvRow>, i: int)
    requires 0 <= i < |gdpCsv|
    ensures MergeTables(p, gdpCsv, lifeCsv)[i].lifeExpectancy.Some? ==
            MergeTables(q, gdpCsv, lifeCsv)[i].lifeExpectancy.Some?
  {
  }

  /** A loaded row with a key and one value, for the year 2000. */
  function SampleRow(country: string, value: string): CsvRow {
    map[Country := country, "2000" := value]
  }

  /** One matched and one unmatched country. */
  lemma SampleJoin(parse: string -> Num)
    ensures var m := MergeTables(parse, [SampleRow("A", "100"), SampleRow("B", "7")], [SampleRow("A", "80")]);
            && |m| == 2
            && m[0].country == Some("A")
            && Field(m[0].gdp, "2000") == Number(parse("100"))
            && m[0].lifeExpectancy.Some?
            && Field(m[0].lifeExpectancy.value, "2000") == Number(parse("80"))
            && m[1].country == Some("B")
            && m[1].lifeExpectancy == None
  {
  }
}
