/**
 * `loadIPRanges` (backend/utils/csvReader.js): the monitored regions, read
 * from the text of the monitoring-ranges CSV file. The header line is
 * dropped, blank lines are skipped, and the other lines are grouped by
 * their city field in a JavaScript `Map`, in the order the cities first
 * appear.
 */
module CsvReader {
  import opened Wrappers
  import opened JsText
  import opened Seqs
  import opened Geo
  import opened Grouping

  /**
   * The number `parseInt` returns for a CSV field (`None` is an absent
   * field). Integer parsing is not modelled: the value is identified by the
   * text it was parsed from.
   */
  datatype Integer = ParsedInt(field: Option<string>)

  /** One range of a city: the raw first two fields and the parsed numeric columns. */
  datatype CsvRange = CsvRange(start: string, end: Option<string>, startNum: Integer, endNum: Integer)

  /** The part of a city's record that its first line fixes. */
  datatype CityInfo = CityInfo(name: Option<string>, coordinates: Coordinates)

  /** `{name, coordinates, ranges}`: the header fixed by the first line, and the ranges of every line. */
  type CityGroup = Group<CityInfo, CsvRange>

  /** Element `i` of a destructured array: `undefined` past its end. */
  function Field(fs: seq<string>, i: nat): Option<string> {
    if i < |fs| then Some(fs[i]) else None
  }

  /** `data.split('\n').slice(1)`: the lines after the header. */
  function DataLines(data: string): seq<string> {
    Split(data, '\n')[1..]
  }

  /** `!line.trim()`. */
  predicate IsBlank(line: string) {
    Trim(line) == []
  }

  /**
   * What a non-blank line contributes: the city field it is grouped under,
   * the record a new city takes from it, and one range.
   */
  function LineEntry(line: string): Entry<Option<string>, CityInfo, CsvRange> {
    var fs := Split(line, ',');
    Entry(Field(fs, 2),
          CityInfo(Field(fs, 2), Coordinates(ParsedFloat(Field(fs, 3)), ParsedFloat(Field(fs, 4)))),
          CsvRange(fs[0], Field(fs, 1), ParsedInt(Field(fs, 5)), ParsedInt(Field(fs, 6))))
  }

  /** What a line contributes: nothing when it is blank. */
  function ParseLine(line: string): (e: Option<Entry<Option<string>, CityInfo, CsvRange>>)
    ensures e.Some? ==> e.value.head.name == e.value.key
  {
    if IsBlank(line) then None else Some(LineEntry(line))
  }

  /** The entries of the non-blank lines, in line order. */
  function LineEntries(lines: seq<string>): seq<Entry<Option<string>, CityInfo, CsvRange>> {
    FilterMap(ParseLine, lines)
  }

  /** The groups the data lines `lines` yield, in the Map's insertion order. */
  function Regions(lines: seq<string>): seq<CityGroup> {
    var es := LineEntries(lines);
    KeyOrderFacts(es);
    GroupsOf(es, KeyOrder(es))
  }

  /** `loadIPRanges()` on the file text `data`. */
  method LoadIpRanges(data: string) returns (groups: seq<CityGroup>)
    ensures groups == Regions(DataLines(data))
  {
    var lines := Split(data, '\n')[1..];
    var cityMap: map<Option<string>, CityGroup> := map[];
    var cities: seq<Option<string>> := [];
    for i := 0 to |lines|
      invariant cityMap == GroupAll(LineEntries(lines[..i]))
      invariant cities == KeyOrder(LineEntries(lines[..i]))
    {
      FilterGroupStep(ParseLine, lines, i);
      cityMap, cities := AddLine(cityMap, cities, lines[i]);
    }
    assert lines[..|lines|] == lines;
    KeyOrderFacts(LineEntries(lines));
    groups := seq(|cities|, j requires 0 <= j < |cities| => cityMap[cities[j]]);
  }

  /**
   * The `forEach` callback for one line: a blank line changes nothing; any
   * other line opens its city's group on first sight and appends its range.
   */
  method AddLine(cityMap: map<Option<string>, CityGroup>, cities: seq<Option<string>>, line: string)
    returns (cityMap': map<Option<string>, CityGroup>, cities': seq<Option<string>>)
    ensures ParseLine(line).None? ==> cityMap' == cityMap && cities' == cities
    ensures ParseLine(line).Some? ==>
              var e := ParseLine(line).value;
              cityMap' == AddEntry(cityMap, e) && cities' == if e.key in cityMap then cities else cities + [e.key]
  {
    cityMap', cities' := cityMap, cities;
    if Trim(line) == [] {
      return;
    }
    var fs := Split(line, ',');
    var city := Field(fs, 2);
    if city !in cityMap' {
      var info := CityInfo(city, Coordinates(ParsedFloat(Field(fs, 3)), ParsedFloat(Field(fs, 4))));
      cityMap' := cityMap'[city := Group(info, [])];
      cities' := cities' + [city];
    }
    var range := CsvRange(fs[0], Field(fs, 1), ParsedInt(Field(fs, 5)), ParsedInt(Field(fs, 6)));
    cityMap' := cityMap'[city := Group(cityMap'[city].head, cityMap'[city].items + [range])];
    assert ParseLine(line) == Some(LineEntry(line));
    assert LineEntry(line).key == city && LineEntry(line).item == range;
    assert city !in cityMap ==> [] + [range] == [range];
  }

  // ---------------------------------------------------------------- properties

  /** The first line is the header: whatever it holds, the data lines are the lines after it. */
  lemma HeaderDropped(header: string, rest: string)
    requires Free(header, '\n')
    ensures DataLines(header + "\n" + rest) == Split(rest, '\n')
  {
    assert header + "\n" + rest == header + ("\n" + rest);
    SplitPrefix(header, "\n" + rest, '\n');
    assert ("\n" + rest)[1..] == rest;
  }

  lemma BlankLineEntries(before: seq<string>, line: string, after: seq<string>)
    requires IsBlank(line)
    ensures LineEntries(before + [line] + after) == LineEntries(before + after)
  {
    FilterMapSkip(ParseLine, before, line, after);
  }

  /** A line that is empty after trimming contributes nothing, wherever it stands. */
  lemma BlankLineIgnored(before: seq<string>, line: string, after: seq<string>)
    requires IsBlank(line)
    ensures Regions(before + [line] + after) == Regions(before + after)
  {
    BlankLineEntries(before, line, after);
  }

  /**
   * One group per distinct city field of the non-blank lines, in the order
   * of first appearance; each group is named after its city, takes its
   * coordinates from the first line of that city, and holds the ranges of
   * all lines of that city, in line order.
   */
  lemma RegionsFacts(lines: seq<string>)
    ensures var es, gs := LineEntries(lines), Regions(lines);
            |gs| == |KeyOrder(es)| && Distinct(KeyOrder(es))
            && forall i | 0 <= i < |gs| ::
                 var city := KeyOrder(es)[i];
                 city in Keys(es)
                 && gs[i].head.name == city
                 && gs[i].head == es[FirstIndex(Keys(es), city)].head
                 && gs[i].items == ItemsOf(es, city)
  {
    var es := LineEntries(lines);
    FirstSeenGroups(es);
    forall j | 0 <= j < |es| ensures es[j].head.name == es[j].key {
      assert es[j] in es;
      FilterMapMembers(ParseLine, lines, es[j]);
    }
  }

  /** Every non-blank data line adds exactly one range: the ranges number as many as those lines. */
  lemma RangeTotal(lines: seq<string>)
    ensures TotalItems(Regions(lines)) == |LineEntries(lines)| == Count(Keeps(ParseLine), lines)
  {
    ListedTotal(LineEntries(lines), KeyOrder(LineEntries(lines)));
    FilterMapLength(ParseLine, lines);
  }

  /** A line contributes a range exactly when it is not blank. */
  lemma ParseLineKeeps(line: string)
    ensures ParseLine(line).Some? <==> !AllWhite(line)
  {
    TrimEmptyIffAllWhite(line);
  }
}
