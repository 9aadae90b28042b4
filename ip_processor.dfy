/**
 * `IPProcessor` (backend/utils/ipprocessor.js): reading the Mayotte rows of
 * an IP-location CSV into per-city records (`loadCSV`), printing a numeric
 * IPv4 address as a dotted quad (`numberToIPv4`), and flattening city
 * records into one list of printable ranges (`getRangesList`).
 */
module IpProcessor {
  import opened Wrappers
  import opened JsText
  import opened Seqs
  import opened Ipv4Text
  import opened Geo
  import opened Grouping
  import opened JsObject

  // ---------------------------------------------------------------- numberToIPv4

  /**
   * `Number(n >> s & 255n)` for a BigInt `n`, where `d` is 2^s: a BigInt
   * shift rounds toward minus infinity, and `& 255n` keeps the low eight
   * bits of the two's-complement value, which is the Euclidean remainder.
   */
  function ShiftMask(n: int, d: nat): (b: nat)
    requires d > 0
    ensures b < 256
  {
    (n / d) % 256
  }

  /** The dotted quad of the octets of the BigInt `n`, highest first. */
  function QuadOf(n: int): string {
    DottedQuad(ShiftMask(n, 0x100_0000), ShiftMask(n, 0x1_0000), ShiftMask(n, 0x100), ShiftMask(n, 1))
  }

  /**
   * `numberToIPv4(num)` for a string or `undefined` (`None`). `BigInt(num)`
   * reads a decimal integer literal; any other text, or `undefined`, makes
   * it throw, and the error is caught and `null` (`None`) returned.
   */
  function NumberToIPv4(num: Option<string>): Option<string> {
    match num
    case None => None
    case Some(t) =>
      match DecimalIntegerValue(t)
      case None => None
      case Some(n) => Some(QuadOf(n))
  }

  /** The number four octets stand for, highest first. */
  function Ipv4Number(a: nat, b: nat, c: nat, d: nat): nat {
    a * 0x100_0000 + b * 0x1_0000 + c * 0x100 + d
  }

  /** A part of a dotted quad: decimal digits worth less than 256. */
  predicate IsOctetText(p: string) {
    |p| >= 1 && AllDigits(p) && DigitsValue(p) < 256
  }

  /** The number a dotted-quad text stands for: four octet texts joined by dots. */
  function QuadValue(ip: string): (v: Option<int>)
    ensures v.Some? ==> 0 <= v.value < 0x1_0000_0000
  {
    var ps := Split(ip, '.');
    if |ps| == 4 && IsOctetText(ps[0]) && IsOctetText(ps[1]) && IsOctetText(ps[2]) && IsOctetText(ps[3])
    then Some(Ipv4Number(DigitsValue(ps[0]), DigitsValue(ps[1]), DigitsValue(ps[2]), DigitsValue(ps[3])))
    else None
  }

  /** The four octets of `n` are the base-256 digits of `n` modulo 2^32. */
  lemma OctetsCompose(n: int)
    ensures Ipv4Number(ShiftMask(n, 0x100_0000), ShiftMask(n, 0x1_0000), ShiftMask(n, 0x100), ShiftMask(n, 1))
            == n % 0x1_0000_0000
  {
    var q1 := n / 0x100;
    var q2 := q1 / 0x100;
    var q3 := q2 / 0x100;
    var q4 := q3 / 0x100;
    var r2 := 0x100 * (q1 % 0x100) + n % 0x100;
    var r3 := 0x1_0000 * (q2 % 0x100) + r2;
    var r4 := 0x100_0000 * (q3 % 0x100) + r3;
    DivUnique(n, 0x1_0000, q2, r2);
    DivUnique(n, 0x100_0000, q3, r3);
    DivUnique(n, 0x1_0000_0000, q4, r4);
  }

  /** Four octets are determined by the number they stand for. */
  lemma OctetsUnique(a: nat, b: nat, c: nat, d: nat, a': nat, b': nat, c': nat, d': nat)
    requires a < 256 && b < 256 && c < 256 && d < 256
    requires a' < 256 && b' < 256 && c' < 256 && d' < 256
    requires Ipv4Number(a, b, c, d) == Ipv4Number(a', b', c', d')
    ensures a == a' && b == b' && c == c' && d == d'
  {
    var v := Ipv4Number(a, b, c, d);
    DivUnique(v, 0x100, a * 0x1_0000 + b * 0x100 + c, d);
    DivUnique(v, 0x100, a' * 0x1_0000 + b' * 0x100 + c', d');
    var w := a * 0x1_0000 + b * 0x100 + c;
    DivUnique(w, 0x100, a * 0x100 + b, c);
    DivUnique(w, 0x100, a' * 0x100 + b', c');
    DivUnique(a * 0x100 + b, 0x100, a, b);
    DivUnique(a * 0x100 + b, 0x100, a', b');
  }

  /** The text depends on the number only modulo 2^32. */
  lemma QuadOfModulo(m: int, n: int)
    requires m % 0x1_0000_0000 == n % 0x1_0000_0000
    ensures QuadOf(m) == QuadOf(n)
  {
    OctetsCompose(m);
    OctetsCompose(n);
    OctetsUnique(ShiftMask(m, 0x100_0000), ShiftMask(m, 0x1_0000), ShiftMask(m, 0x100), ShiftMask(m, 1),
                 ShiftMask(n, 0x100_0000), ShiftMask(n, 0x1_0000), ShiftMask(n, 0x100), ShiftMask(n, 1));
  }

  /** The dotted quad reads back as the number modulo 2^32. */
  lemma QuadOfReadsBack(n: int)
    ensures QuadValue(QuadOf(n)) == Some(n % 0x1_0000_0000)
  {
    var a, b, c, d := ShiftMask(n, 0x100_0000), ShiftMask(n, 0x1_0000), ShiftMask(n, 0x100), ShiftMask(n, 1);
    DottedQuadParts(a, b, c, d);
    NatToStringValue(a);
    NatToStringValue(b);
    NatToStringValue(c);
    NatToStringValue(d);
    OctetsCompose(n);
  }

  /** Four octets printed from the number they stand for give back their own dotted quad. */
  lemma QuadOfOctets(a: nat, b: nat, c: nat, d: nat)
    requires a < 256 && b < 256 && c < 256 && d < 256
    ensures QuadOf(Ipv4Number(a, b, c, d)) == DottedQuad(a, b, c, d)
  {
    var v := Ipv4Number(a, b, c, d);
    DivUnique(v, 0x1_0000_0000, 0, v);
    OctetsCompose(v);
    OctetsUnique(ShiftMask(v, 0x100_0000), ShiftMask(v, 0x1_0000), ShiftMask(v, 0x100), ShiftMask(v, 1), a, b, c, d);
  }

  /**
   * A text `BigInt` reads as the integer `n` converts to a dotted quad that
   * reads back as `n` modulo 2^32; `undefined`, and a text `BigInt` refuses,
   * give `null`.
   */
  lemma NumberToIPv4Cases(num: Option<string>)
    ensures NumberToIPv4(num).None? <==> num.None? || DecimalIntegerValue(num.value).None?
    ensures num.Some? && DecimalIntegerValue(num.value).Some? ==>
              QuadValue(NumberToIPv4(num).value) == Some(DecimalIntegerValue(num.value).value % 0x1_0000_0000)
  {
    if num.Some? && DecimalIntegerValue(num.value).Some? {
      QuadOfReadsBack(DecimalIntegerValue(num.value).value);
    }
  }

  /** The decimal text of a natural number converts to the address it stands for modulo 2^32. */
  lemma NumberToIPv4OfNat(n: nat)
    ensures NumberToIPv4(Some(NatToString(n))) == Some(QuadOf(n))
    ensures QuadValue(QuadOf(n)) == Some(n % 0x1_0000_0000)
  {
    DecimalIntegerValueOfNat(n);
    QuadOfReadsBack(n);
  }

  /** A field that holds a dotted quad (any text with a '.' inside) is not a BigInt literal: `null`. */
  lemma DottedInputIsNull(t: string, i: nat)
    requires i < |Trim(t)| && Trim(t)[i] == '.'
    ensures NumberToIPv4(Some(t)) == None
  {
    var u := Trim(t);
    assert !IsDigit(u[i]);
    assert !AllDigits(u);
    if |u| >= 2 && i >= 1 {
      assert u[1..][i - 1] == '.';
      assert !AllDigits(u[1..]);
    }
  }

  // ---------------------------------------------------------------- loadCSV

  /** `String.prototype.replace(/"/g, '')`: the text without its double quotes. */
  function StripQuotes(s: string): (t: string)
    ensures Free(t, '"')
    ensures |t| <= |s|
    decreases |s|
  {
    if |s| == 0 then []
    else StripQuotes(s[..|s| - 1]) + (if s[|s| - 1] == '"' then [] else [s[|s| - 1]])
  }

  /** Removing the quotes of a concatenation removes those of each part. */
  lemma {:induction false} StripQuotesAppend(a: string, b: string)
    ensures StripQuotes(a + b) == StripQuotes(a) + StripQuotes(b)
    decreases |b|
  {
    if |b| == 0 {
      assert a + b == a;
    } else {
      StripQuotesAppend(a, b[..|b| - 1]);
      assert (a + b)[..|a + b| - 1] == a + b[..|b| - 1];
    }
  }

  /** A character other than a quote survives quote removal, and nothing else appears. */
  lemma {:induction false} StripQuotesKeepsFree(s: string, c: char)
    requires Free(s, c)
    ensures Free(StripQuotes(s), c)
    decreases |s|
  {
    if |s| > 0 {
      StripQuotesKeepsFree(s[..|s| - 1], c);
      assert s[|s| - 1] != c;
    }
  }

  /** Unquoting each piece and then joining them is unquoting the joined text. */
  lemma {:induction false} JoinStripped(ps: seq<string>, qs: seq<string>, sep: char)
    requires sep != '"'
    requires |qs| == |ps| && forall i | 0 <= i < |ps| :: qs[i] == StripQuotes(ps[i])
    ensures Join(qs, sep) == StripQuotes(Join(ps, sep))
    decreases |ps|
  {
    if |ps| > 1 {
      var rest := Join(ps[1..], sep);
      JoinStripped(ps[1..], qs[1..], sep);
      StripQuotesAppend(ps[0] + [sep], rest);
      StripQuotesAppend(ps[0], [sep]);
      assert StripQuotes([sep]) == [sep] by {
        assert [sep][..0] == [];
      }
    }
  }

  /**
   * The comma-separated fields of a line, each without double quotes: no
   * field holds a quote or a comma, joined with commas they are the unquoted
   * line, and they are the pieces of the unquoted line split at its commas.
   */
  function Fields(line: string): (fs: seq<string>)
    ensures |fs| == |Split(line, ',')| >= 1
    ensures forall i | 0 <= i < |fs| :: Free(fs[i], '"') && Free(fs[i], ',')
    ensures Join(fs, ',') == StripQuotes(line)
    ensures Split(StripQuotes(line), ',') == fs
  {
    var ps := Split(line, ',');
    var fs := seq(|ps|, i requires 0 <= i < |ps| => StripQuotes(ps[i]));
    JoinSplit(line, ',');
    JoinStripped(ps, fs, ',');
    forall i | 0 <= i < |fs| ensures Free(fs[i], ',') {
      StripQuotesKeepsFree(ps[i], ',');
    }
    SplitJoin(fs, ',');
    fs
  }

  /** Element `i` of a destructured array: `undefined` past its end. */
  function Field(fs: seq<string>, i: nat): Option<string> {
    if i < |fs| then Some(fs[i]) else None
  }

  /** `{lat, lon}`: the two `parseFloat` results of a row. */
  datatype Location = Location(lat: Float, lon: Float)

  /** One Mayotte row: `{start, end, region, city, location, zip}`. */
  datatype MayotteRange = MayotteRange(start: string, end: Option<string>, region: Option<string>,
                                       city: Option<string>, location: Location, zip: Option<string>)

  /** No text field of a row holds a double quote. */
  predicate QuoteFree(r: MayotteRange) {
    Free(r.start, '"')
    && (r.end.Some? ==> Free(r.end.value, '"'))
    && (r.region.Some? ==> Free(r.region.value, '"'))
    && (r.city.Some? ==> Free(r.city.value, '"'))
    && (r.zip.Some? ==> Free(r.zip.value, '"'))
  }

  /**
   * The row a line gives, if any: blank lines give none, and so do lines
   * whose third field (the country) is not exactly `YT` once unquoted.
   */
  function RowOf(line: string): (r: Option<MayotteRange>)
    ensures r.Some? ==> QuoteFree(r.value)
  {
    if Trim(line) == [] then None
    else
      var fs := Fields(line);
      if Field(fs, 2) == Some("YT")
      then Some(MayotteRange(fs[0], Field(fs, 1), Field(fs, 4), Field(fs, 5),
                             Location(ParsedFloat(Field(fs, 6)), ParsedFloat(Field(fs, 7))), Field(fs, 8)))
      else None
  }

  /** `mayotteRanges` after reading the lines `lines`. */
  function MayotteRanges(lines: seq<string>): seq<MayotteRange> {
    FilterMap(RowOf, lines)
  }

  /** The record fields a city takes from its first row: `name`, `coordinates` as `[lon, lat]`, and `status`. */
  datatype CityHead = CityHead(name: Option<string>, coordinates: Coordinates, status: string)

  /** `{start, end}`: one range of a city. */
  datatype IpRange = IpRange(start: string, end: Option<string>)

  /** `{name, coordinates, ranges, status}`. */
  type CityRecord = Group<CityHead, IpRange>

  /** What a row contributes to the `reduce`: its property key, the record it would open, and its range. */
  function CityEntry(r: MayotteRange): (e: Entry<string, CityHead, IpRange>)
    ensures e.head.status == "unknown"
  {
    Entry(PropertyKey(r.city),
          CityHead(r.city, Coordinates(r.location.lon, r.location.lat), "unknown"),
          IpRange(r.start, r.end))
  }

  function CityEntries(rows: seq<MayotteRange>): (es: seq<Entry<string, CityHead, IpRange>>)
    ensures |es| == |rows|
    ensures forall i | 0 <= i < |rows| :: es[i] == CityEntry(rows[i])
  {
    seq(|rows|, i requires 0 <= i < |rows| => CityEntry(rows[i]))
  }

  /** The error the `reduce` throws: a `TypeError` from `.ranges.push` on an inherited member. */
  datatype LoadError = TypeError(key: string)

  /**
   * The result of the `reduce` and `Object.values` over the rows `rows`: a
   * row whose city names a member of Object.prototype finds that member
   * truthy, opens no record, and fails on `.ranges.push`; otherwise the
   * records of all cities, in the object's own-key order.
   */
  function GroupByCity(rows: seq<MayotteRange>): Result<seq<CityRecord>, LoadError> {
    var es := CityEntries(rows);
    if exists i | 0 <= i < |es| :: IsInherited(es[i].key)
    then Err(TypeError(es[FirstInherited(es)].key))
    else
      KeyOrderFacts(es);
      Ok(ObjectValues(GroupAll(es), KeyOrder(es)))
  }

  /** The first row whose key names an inherited member. */
  function FirstInherited(es: seq<Entry<string, CityHead, IpRange>>): (i: nat)
    requires exists i | 0 <= i < |es| :: IsInherited(es[i].key)
    ensures i < |es| && IsInherited(es[i].key)
    ensures forall j | 0 <= j < i :: !IsInherited(es[j].key)
    decreases |es|
  {
    if IsInherited(es[0].key) then 0
    else
      assert exists i | 0 <= i < |es[1..]| :: IsInherited(es[1..][i].key) by {
        var i :| 0 <= i < |es| && IsInherited(es[i].key);
        assert es[1..][i - 1] == es[i];
      }
      FirstInherited(es[1..]) + 1
  }

  /** `loadCSV` on a file whose lines are `lines`. */
  function CsvRecords(lines: seq<string>): Result<seq<CityRecord>, LoadError> {
    GroupByCity(MayotteRanges(lines))
  }

  /** `loadCSV(filePath)` on a file whose lines are `lines`; a thrown error is re-thrown (`Err`). */
  method LoadCsv(lines: seq<string>) returns (r: Result<seq<CityRecord>, LoadError>)
    ensures r == CsvRecords(lines)
  {
    var mayotteRanges := ReadRows(lines);
    r := GroupRows(mayotteRanges);
  }

  /** The `for await` loop: one row per non-blank line of Mayotte. */
  method ReadRows(lines: seq<string>) returns (rows: seq<MayotteRange>)
    ensures rows == MayotteRanges(lines)
  {
    rows := [];
    for i := 0 to |lines|
      invariant rows == FilterMap(RowOf, lines[..i])
    {
      FilterMapStep(RowOf, lines, i);
      var line := lines[i];
      if Trim(line) != [] {
        var fs := Fields(line);
        var country := Field(fs, 2);
        if country == Some("YT") {
          rows := rows + [MayotteRange(fs[0], Field(fs, 1), Field(fs, 4), Field(fs, 5),
                                       Location(ParsedFloat(Field(fs, 6)), ParsedFloat(Field(fs, 7))), Field(fs, 8))];
        }
      }
    }
    assert lines[..|lines|] == lines;
  }

  /** The `reduce` into `{}` and `Object.values`. */
  method GroupRows(rows: seq<MayotteRange>) returns (r: Result<seq<CityRecord>, LoadError>)
    ensures r == GroupByCity(rows)
  {
    ghost var es := CityEntries(rows);
    var acc: map<string, CityRecord> := map[];
    var created: seq<string> := [];
    for i := 0 to |rows|
      invariant acc == GroupAll(es[..i])
      invariant created == KeyOrder(es[..i])
      invariant forall j | 0 <= j < i :: !IsInherited(es[j].key)
    {
      var thrown;
      acc, created, thrown := AddRow(acc, created, rows[i]);
      if thrown {
        GroupByCityFails(rows, i);
        return Err(TypeError(PropertyKey(rows[i].city)));
      }
      NoInheritedKey(es, i);
      GroupPrefixStep(es, i);
    }
    assert es[..|rows|] == es;
    GroupByCityListed(rows);
    r := Ok(ObjectValues(acc, created));
  }

  /** A row the `reduce` gets past has a key that is not inherited: it was either seen before or is not inherited itself. */
  lemma NoInheritedKey(es: seq<Entry<string, CityHead, IpRange>>, i: nat)
    requires i < |es| && forall j | 0 <= j < i :: !IsInherited(es[j].key)
    requires es[i].key in GroupAll(es[..i]) || !IsInherited(es[i].key)
    ensures forall j | 0 <= j < i + 1 :: !IsInherited(es[j].key)
  {
    if es[i].key in GroupAll(es[..i]) {
      var j := GroupAllKeysFrom(es[..i], es[i].key);
      assert es[j] == es[..i][j];
    }
  }

  /** The `reduce` throws at the first row whose key names an inherited member. */
  lemma GroupByCityFails(rows: seq<MayotteRange>, i: nat)
    requires i < |rows| && IsInherited(CityEntries(rows)[i].key)
    requires forall j | 0 <= j < i :: !IsInherited(CityEntries(rows)[j].key)
    ensures GroupByCity(rows) == Err(TypeError(PropertyKey(rows[i].city)))
  {
    var es := CityEntries(rows);
    assert FirstInherited(es) == i;
  }

  /** Without such a row, `Object.values` lists the groups in the object's own-key order. */
  lemma GroupByCityListed(rows: seq<MayotteRange>)
    requires forall j | 0 <= j < |rows| :: !IsInherited(CityEntries(rows)[j].key)
    ensures forall k | k in KeyOrder(CityEntries(rows)) :: k in GroupAll(CityEntries(rows))
    ensures GroupByCity(rows) == Ok(ObjectValues(GroupAll(CityEntries(rows)), KeyOrder(CityEntries(rows))))
  {
    KeyOrderFacts(CityEntries(rows));
  }

  /**
   * The `reduce` callback for one row: open the record on first sight, then
   * push the range. A key naming an inherited member finds that member
   * truthy, opens nothing, and `.ranges.push` throws (`thrown`).
   */
  method AddRow(acc: map<string, CityRecord>, created: seq<string>, range: MayotteRange)
    returns (acc': map<string, CityRecord>, created': seq<string>, thrown: bool)
    ensures thrown <==> PropertyKey(range.city) !in acc && IsInherited(PropertyKey(range.city))
    ensures !thrown ==>
              var e := CityEntry(range);
              acc' == AddEntry(acc, e) && created' == if e.key in acc then created else created + [e.key]
  {
    var key := PropertyKey(range.city);
    acc', created', thrown := acc, created, false;
    if key !in acc' {
      if IsInherited(key) {
        thrown := true;
        return;
      }
      acc' := acc'[key := Group(CityHead(range.city, Coordinates(range.location.lon, range.location.lat), "unknown"), [])];
      created' := created' + [key];
    }
    acc' := acc'[key := Group(acc'[key].head, acc'[key].items + [IpRange(range.start, range.end)])];
    assert key !in acc ==> [] + [IpRange(range.start, range.end)] == [IpRange(range.start, range.end)];
  }

  // ---------------------------------------------------------------- getRangesList

  /** `{city, startIP, endIP, coordinates}`. */
  datatype RangeRecord = RangeRecord(city: Option<string>, startIP: string, endIP: string, coordinates: Coordinates)

  /** The record one range of a city gives: none unless both ends convert (`null` is falsy, a dotted quad is not). */
  function RecordOf(city: CityHead, range: IpRange): Option<RangeRecord> {
    var startIP, endIP := NumberToIPv4(Some(range.start)), NumberToIPv4(range.end);
    if startIP.Some? && endIP.Some? then Some(RangeRecord(city.name, startIP.value, endIP.value, city.coordinates))
    else None
  }

  function Convert(city: CityHead): IpRange -> Option<RangeRecord> {
    range => RecordOf(city, range)
  }

  /** The records of one city, in range order. */
  function CityRanges(g: CityRecord): seq<RangeRecord> {
    FilterMap(Convert(g.head), g.items)
  }

  /** `getRangesList(regions)`: the records of every city, in city order. */
  function RangesList(regions: seq<CityRecord>): seq<RangeRecord> {
    FlatMap(CityRanges, regions)
  }

  method GetRangesList(regions: seq<CityRecord>) returns (allRanges: seq<RangeRecord>)
    ensures allRanges == RangesList(regions)
  {
    allRanges := [];
    for i := 0 to |regions|
      invariant allRanges == FlatMap(CityRanges, regions[..i])
    {
      FlatMapStep(CityRanges, regions, i);
      allRanges := PushCityRanges(allRanges, regions[i]);
    }
    assert regions[..|regions|] == regions;
  }

  /** The inner loop of `getRangesList`: the records of one city's ranges, pushed in range order. */
  method PushCityRanges(allRanges: seq<RangeRecord>, region: CityRecord) returns (allRanges': seq<RangeRecord>)
    ensures allRanges' == allRanges + CityRanges(region)
  {
    allRanges' := allRanges;
    for j := 0 to |region.items|
      invariant allRanges' == allRanges + FilterMap(Convert(region.head), region.items[..j])
    {
      var record := ConvertRange(region.head, region.items[j]);
      FilterMapPush(Convert(region.head), region.items, j, allRanges, allRanges', record);
      if record.Some? {
        allRanges' := allRanges' + [record.value];
      }
    }
    assert region.items[..|region.items|] == region.items;
  }

  /** The `try` block for one range: convert both ends, and give a record when both are non-null. */
  method ConvertRange(city: CityHead, range: IpRange) returns (record: Option<RangeRecord>)
    ensures record.Some? <==>
              DecimalIntegerValue(range.start).Some? && range.end.Some? && DecimalIntegerValue(range.end.value).Some?
    ensures record.Some? ==>
              record.value.city == city.name && record.value.coordinates == city.coordinates
              && QuadValue(record.value.startIP) == Some(DecimalIntegerValue(range.start).value % 0x1_0000_0000)
              && QuadValue(record.value.endIP) == Some(DecimalIntegerValue(range.end.value).value % 0x1_0000_0000)
    ensures record == Convert(city)(range)
  {
    RecordOfCases(city, range);
    var startIP := NumberToIPv4(Some(range.start));
    var endIP := NumberToIPv4(range.end);
    if startIP.Some? && endIP.Some? {
      record := Some(RangeRecord(city.name, startIP.value, endIP.value, city.coordinates));
    } else {
      record := None;
    }
  }

  // ---------------------------------------------------------------- properties of loadCSV

  /** A line gives a row exactly when it is not blank and its unquoted country field is `YT`. */
  lemma RowOfKeeps(line: string)
    ensures RowOf(line).Some? <==> !AllWhite(line) && Field(Fields(line), 2) == Some("YT")
  {
    TrimEmptyIffAllWhite(line);
  }

  /** A line that gives no row, blank or of another country, changes nothing wherever it stands. */
  lemma LineSkipped(before: seq<string>, line: string, after: seq<string>)
    requires AllWhite(line) || Field(Fields(line), 2) != Some("YT")
    ensures CsvRecords(before + [line] + after) == CsvRecords(before + after)
  {
    RowOfKeeps(line);
    FilterMapSkip(RowOf, before, line, after);
  }

  /** Whether a row's city names a member of Object.prototype. */
  predicate InheritedCity(r: MayotteRange) {
    IsInherited(PropertyKey(r.city))
  }

  /** The `reduce` throws exactly when some row's city names a member of Object.prototype. */
  lemma GroupByCityErr(rows: seq<MayotteRange>)
    ensures GroupByCity(rows).Err? <==> exists j | 0 <= j < |rows| :: InheritedCity(rows[j])
  {
    var es := CityEntries(rows);
    assert forall j | 0 <= j < |rows| :: InheritedCity(rows[j]) == IsInherited(es[j].key);
  }

  /** `loadCSV` throws exactly when some kept row's city names a member of Object.prototype. */
  lemma CsvRecordsFails(lines: seq<string>)
    ensures CsvRecords(lines).Err? <==>
              exists i | 0 <= i < |lines| :: RowOf(lines[i]).Some? && InheritedCity(RowOf(lines[i]).value)
  {
    var rows := MayotteRanges(lines);
    var p: MayotteRange -> bool := InheritedCity;
    GroupByCityErr(rows);
    FilterMapExists(RowOf, p, lines);
    if exists j | 0 <= j < |rows| :: InheritedCity(rows[j]) {
      var j :| 0 <= j < |rows| && InheritedCity(rows[j]);
      assert p(rows[j]);
      var i :| 0 <= i < |lines| && RowOf(lines[i]).Some? && p(RowOf(lines[i]).value);
    }
    if exists i | 0 <= i < |lines| :: RowOf(lines[i]).Some? && InheritedCity(RowOf(lines[i]).value) {
      var i :| 0 <= i < |lines| && RowOf(lines[i]).Some? && InheritedCity(RowOf(lines[i]).value);
      assert p(RowOf(lines[i]).value);
      var j :| 0 <= j < |rows| && p(rows[j]);
    }
  }

  /** `Object.values` of the grouped object: the groups, listed in the own-key order of the cities. */
  lemma ObjectValuesGroups(es: seq<Entry<string, CityHead, IpRange>>)
    ensures forall k | k in KeyOrder(es) :: k in GroupAll(es)
    ensures forall k | k in OwnKeys(KeyOrder(es)) :: k in GroupAll(es)
    ensures ObjectValues(GroupAll(es), KeyOrder(es)) == GroupsOf(es, OwnKeys(KeyOrder(es)))
  {
    KeyOrderFacts(es);
    OwnKeysFacts(KeyOrder(es));
    assert forall k | k in OwnKeys(KeyOrder(es)) :: k in multiset(KeyOrder(es));
  }

  /**
   * The records `loadCSV` returns: one per distinct city key, none lost and
   * none repeated, in the own-key order of those keys. Each is the group of
   * its key: named after the city of the key's first row, with that row's
   * `[lon, lat]`, status `unknown`, and the `{start, end}` of every row with
   * that key, in line order.
   */
  lemma CsvRecordsFacts(lines: seq<string>)
    requires CsvRecords(lines).Ok?
    ensures var rows, gs := MayotteRanges(lines), CsvRecords(lines).value;
            var es := CityEntries(rows);
            var ks := OwnKeys(KeyOrder(es));
            |gs| == |ks| && multiset(ks) == multiset(KeyOrder(es)) && Distinct(KeyOrder(es))
            && forall i | 0 <= i < |gs| ::
                 ks[i] in Keys(es)
                 && gs[i].head == CityEntry(rows[FirstIndex(Keys(es), ks[i])]).head
                 && gs[i].head.name == rows[FirstIndex(Keys(es), ks[i])].city
                 && gs[i].head.status == "unknown"
                 && gs[i].items == ItemsOf(es, ks[i])
  {
    var rows := MayotteRanges(lines);
    var es := CityEntries(rows);
    var ks := OwnKeys(KeyOrder(es));
    ObjectValuesGroups(es);
    KeyOrderFacts(es);
    OwnKeysFacts(KeyOrder(es));
    GroupsOfFacts(es, ks);
  }

  /** Every kept row lands in exactly one record: the records hold as many ranges as there are kept rows. */
  lemma CsvRecordsTotal(lines: seq<string>)
    requires CsvRecords(lines).Ok?
    ensures TotalItems(CsvRecords(lines).value) == |MayotteRanges(lines)| == Count(Keeps(RowOf), lines)
  {
    var es := CityEntries(MayotteRanges(lines));
    ObjectValuesGroups(es);
    OwnKeysFacts(KeyOrder(es));
    ListedTotal(es, OwnKeys(KeyOrder(es)));
    FilterMapLength(RowOf, lines);
  }

  /** When no city key is an array index, the records come in the order their cities first appear. */
  lemma CsvRecordsOrder(lines: seq<string>)
    requires CsvRecords(lines).Ok?
    requires var ks := KeyOrder(CityEntries(MayotteRanges(lines)));
             forall i | 0 <= i < |ks| :: !IsArrayIndex(ks[i])
    ensures var es := CityEntries(MayotteRanges(lines));
            forall k | k in KeyOrder(es) :: k in GroupAll(es)
    ensures var es := CityEntries(MayotteRanges(lines));
            CsvRecords(lines).value == GroupsOf(es, KeyOrder(es))
  {
    var es := CityEntries(MayotteRanges(lines));
    ObjectValuesGroups(es);
    OwnKeysWithoutIndices(KeyOrder(es));
  }

  // ---------------------------------------------------------------- properties of getRangesList

  /**
   * A range gives a record exactly when both ends are decimal integer texts;
   * the record carries the city's name and coordinates, and its ends read
   * back as those integers modulo 2^32.
   */
  lemma RecordOfCases(city: CityHead, range: IpRange)
    ensures RecordOf(city, range).Some? <==>
              DecimalIntegerValue(range.start).Some? && range.end.Some? && DecimalIntegerValue(range.end.value).Some?
    ensures RecordOf(city, range).Some? ==>
              var rec := RecordOf(city, range).value;
              rec.city == city.name && rec.coordinates == city.coordinates
              && QuadValue(rec.startIP) == Some(DecimalIntegerValue(range.start).value % 0x1_0000_0000)
              && QuadValue(rec.endIP) == Some(DecimalIntegerValue(range.end.value).value % 0x1_0000_0000)
  {
    NumberToIPv4Cases(Some(range.start));
    NumberToIPv4Cases(range.end);
  }

  /** A record is listed exactly when some range of some region converts to it. */
  lemma RangesListMembers(regions: seq<CityRecord>, rec: RangeRecord)
    ensures rec in RangesList(regions) <==>
              exists i, j | 0 <= i < |regions| && 0 <= j < |regions[i].items| ::
                RecordOf(regions[i].head, regions[i].items[j]) == Some(rec)
  {
    FlatMapMembers(CityRanges, regions, rec);
    forall i | 0 <= i < |regions|
      ensures rec in CityRanges(regions[i]) <==>
                exists j | 0 <= j < |regions[i].items| :: RecordOf(regions[i].head, regions[i].items[j]) == Some(rec)
    {
      FilterMapMembers(Convert(regions[i].head), regions[i].items, rec);
    }
  }

  /** Whether every range of a region converts. */
  predicate RegionConverts(g: CityRecord) {
    forall j | 0 <= j < |g.items| :: RecordOf(g.head, g.items[j]).Some?
  }

  /** Whether every range of every region converts. */
  predicate AllConvert(regions: seq<CityRecord>) {
    forall i | 0 <= i < |regions| :: RegionConverts(regions[i])
  }

  /** A region gives at most one record per range, and one per range exactly when all its ranges convert. */
  lemma CityRangesSize(g: CityRecord)
    ensures |CityRanges(g)| <= |g.items|
    ensures |CityRanges(g)| == |g.items| <==> RegionConverts(g)
  {
    FilterMapLength(Convert(g.head), g.items);
    CountAll(Keeps(Convert(g.head)), g.items);
  }

  /** The list holds at most one record per range, and one per range exactly when every range converts. */
  lemma {:induction false} RangesListSize(regions: seq<CityRecord>)
    ensures |RangesList(regions)| <= TotalItems(regions)
    ensures |RangesList(regions)| == TotalItems(regions) <==> AllConvert(regions)
    decreases |regions|
  {
    if |regions| > 0 {
      var init, last := regions[..|regions| - 1], regions[|regions| - 1];
      RangesListSize(init);
      CityRangesSize(last);
      RangesListSnoc(regions);
      TotalItemsSnoc(regions);
      AllConvertSnoc(regions);
    }
  }

  lemma RangesListSnoc(regions: seq<CityRecord>)
    requires |regions| > 0
    ensures RangesList(regions) == RangesList(regions[..|regions| - 1]) + CityRanges(regions[|regions| - 1])
  {
  }

  lemma TotalItemsSnoc(regions: seq<CityRecord>)
    requires |regions| > 0
    ensures TotalItems(regions) == TotalItems(regions[..|regions| - 1]) + |regions[|regions| - 1].items|
  {
  }

  lemma AllConvertSnoc(regions: seq<CityRecord>)
    requires |regions| > 0
    ensures AllConvert(regions) <==> AllConvert(regions[..|regions| - 1]) && RegionConverts(regions[|regions| - 1])
  {
    var init := regions[..|regions| - 1];
    assert forall i | 0 <= i < |init| :: init[i] == regions[i];
  }

  /** Records keep the order of the regions: the list of two runs of regions is the two lists one after the other. */
  lemma RangesListAppend(a: seq<CityRecord>, b: seq<CityRecord>)
    ensures RangesList(a + b) == RangesList(a) + RangesList(b)
  {
    FlatMapAppend(CityRanges, a, b);
  }
}
