/**
 * Which addresses `NetworkMonitor.checkCityStatus` probes for a region: the
 * range filter, the first three surviving ranges, and for each of them the
 * JavaScript `Set` of start, three "+k" neighbours of the start and end.
 */
module Sampler {
  import opened JsText
  import opened Seqs
  import opened Ipv4Text

  /** One address range as the monitor receives it: dotted-quad text. */
  datatype Range = Range(start: string, end: string)

  /** The number of surviving ranges a region check looks at. */
  const RangesPerRegion: nat := 3

  /** The filter's condition: a range starting at 0.0.0.0 or ending at 255.255.255.255 is skipped. */
  predicate IsCheckable(r: Range) {
    r.start != "0.0.0.0" && r.end != "255.255.255.255"
  }

  /** `region.ranges.filter(IsCheckable)`. */
  function ValidRanges(rs: seq<Range>): seq<Range>
    decreases |rs|
  {
    if |rs| == 0 then []
    else ValidRanges(rs[..|rs| - 1]) + (if IsCheckable(rs[|rs| - 1]) then [rs[|rs| - 1]] else [])
  }

  /** `validRanges.slice(0, 3)`. */
  function RangesToCheck(rs: seq<Range>): seq<Range> {
    Take(ValidRanges(rs), RangesPerRegion)
  }

  /** Element `i` of `start.split('.').map(Number)`; `undefined` past the end. */
  function StartPart(parts: seq<string>, i: nat): JsValue {
    if i < |parts| then NumberOf(parts[i]) else Undefined
  }

  /** The template `${p0}.${p1}.${p2}.${p3 + k}` over the numeric parts of `start`. */
  function NextAddress(start: string, k: nat): string {
    Join(NextParts(Split(start, '.'), k), '.')
  }

  /** The four printed pieces of the template, from the parts of the start. */
  function NextParts(parts: seq<string>, k: nat): seq<string> {
    [ToText(StartPart(parts, 0)), ToText(StartPart(parts, 1)), ToText(StartPart(parts, 2)),
     ToText(Plus(StartPart(parts, 3), k))]
  }

  /** `Array.from(new Set([start, +1, +2, +3, end]))`: the candidates of one range, in insertion order. */
  function Candidates(r: Range): seq<string> {
    Dedup([r.start, NextAddress(r.start, 1), NextAddress(r.start, 2), NextAddress(r.start, 3), r.end])
  }

  /** The addresses pushed onto `allChecks` for the ranges `rs`, in order. */
  function SampleOf(rs: seq<Range>): seq<string> {
    FlatMap(Candidates, rs)
  }

  /** Every address a region check probes. */
  function RegionSample(rs: seq<Range>): seq<string> {
    SampleOf(RangesToCheck(rs))
  }

  // ---------------------------------------------------------------- the range filter

  /**
   * A range survives the filter exactly when neither its start is 0.0.0.0 nor
   * its end is 255.255.255.255: either condition alone drops it.
   */
  lemma {:induction false} ValidRangesMembers(rs: seq<Range>, r: Range)
    ensures r in ValidRanges(rs) <==> r in rs && r.start != "0.0.0.0" && r.end != "255.255.255.255"
    decreases |rs|
  {
    if |rs| > 0 {
      var init := rs[..|rs| - 1];
      ValidRangesMembers(init, r);
      assert rs == init + [rs[|rs| - 1]];
    }
  }

  /** The filter keeps the order of the ranges: filtering a concatenation concatenates the results. */
  lemma {:induction false} ValidRangesAppend(a: seq<Range>, b: seq<Range>)
    ensures ValidRanges(a + b) == ValidRanges(a) + ValidRanges(b)
    decreases |b|
  {
    if |b| == 0 {
      assert a + b == a;
    } else {
      ValidRangesAppend(a, b[..|b| - 1]);
      assert (a + b)[..|a + b| - 1] == a + b[..|b| - 1];
    }
  }

  /** When every range is checkable, the filter keeps them all. */
  lemma {:induction false} ValidRangesAll(rs: seq<Range>)
    requires forall i | 0 <= i < |rs| :: IsCheckable(rs[i])
    ensures ValidRanges(rs) == rs
    decreases |rs|
  {
    if |rs| > 0 {
      ValidRangesAll(rs[..|rs| - 1]);
    }
  }

  /**
   * Only the first three surviving ranges are checked; a region with at most
   * three surviving ranges has all of them checked.
   */
  lemma RangesToCheckPrefix(rs: seq<Range>)
    ensures |RangesToCheck(rs)| == Min(3, |ValidRanges(rs)|)
    ensures RangesToCheck(rs) == ValidRanges(rs)[..|RangesToCheck(rs)|]
    ensures |ValidRanges(rs)| <= 3 ==> RangesToCheck(rs) == ValidRanges(rs)
  {
    TakePrefix(ValidRanges(rs), RangesPerRegion);
  }

  // ---------------------------------------------------------------- candidate sets

  /** `Dedup` of five values: holds the first and the last, 1..5 elements, distinct, drawn from the five. */
  lemma DedupFiveFacts<T>(a: T, b: T, c: T, d: T, e: T)
    ensures a in Dedup([a, b, c, d, e]) && e in Dedup([a, b, c, d, e])
    ensures 1 <= |Dedup([a, b, c, d, e])| <= 5
    ensures Distinct(Dedup([a, b, c, d, e]))
    ensures Dedup([a, b, c, d, e])[0] == a
    ensures forall x | x in Dedup([a, b, c, d, e]) :: x == a || x == b || x == c || x == d || x == e
  {
    var five := [a, b, c, d, e];
    assert five[0] == a && five[4] == e;
    DedupFacts(five);
    DedupHead(five);
  }

  /**
   * The candidate set of a range holds its start and its end, has between one
   * and five elements, no two equal, all drawn from the five templates, and
   * lists the start first.
   */
  lemma CandidatesFacts(r: Range)
    ensures r.start in Candidates(r) && r.end in Candidates(r)
    ensures 1 <= |Candidates(r)| <= 5
    ensures Distinct(Candidates(r))
    ensures Candidates(r)[0] == r.start
    ensures forall x | x in Candidates(r) ::
              x == r.start || x == r.end || x == NextAddress(r.start, 1)
              || x == NextAddress(r.start, 2) || x == NextAddress(r.start, 3)
  {
    DedupFiveFacts(r.start, NextAddress(r.start, 1), NextAddress(r.start, 2), NextAddress(r.start, 3), r.end);
  }

  /**
   * The "+k" neighbours add `k` to the last octet's number only: nothing
   * carries into the other octets, so their last octet may exceed 255.
   */
  lemma NextAddressNoCarry(a: nat, b: nat, c: nat, d: nat, k: nat)
    ensures NextAddress(DottedQuad(a, b, c, d), k) == DottedQuad(a, b, c, d + k)
  {
    DottedQuadParts(a, b, c, d);
    NextPartsOfNumbers(Split(DottedQuad(a, b, c, d), '.'), a, b, c, d, k);
  }

  /** The pieces of the template over the parts of a dotted quad. */
  lemma NextPartsOfNumbers(parts: seq<string>, a: nat, b: nat, c: nat, d: nat, k: nat)
    requires parts == [NatToString(a), NatToString(b), NatToString(c), NatToString(d)]
    ensures NextParts(parts, k) == [NatToString(a), NatToString(b), NatToString(c), NatToString(d + k)]
  {
    PartText(parts, 0, a);
    PartText(parts, 1, b);
    PartText(parts, 2, c);
    LastPartText(parts, d, k);
  }

  lemma PartText(parts: seq<string>, i: nat, n: nat)
    requires i < |parts| && parts[i] == NatToString(n)
    ensures ToText(StartPart(parts, i)) == NatToString(n)
  {
    NumberOfNat(n);
  }

  lemma LastPartText(parts: seq<string>, n: nat, k: nat)
    requires 3 < |parts| && parts[3] == NatToString(n)
    ensures ToText(Plus(StartPart(parts, 3), k)) == NatToString(n + k)
  {
    NumberOfNat(n);
    assert Plus(StartPart(parts, 3), k) == Num(n + k);
  }

  lemma LastOctetDiffers(a: nat, b: nat, c: nat, d: nat, e: nat)
    requires d != e
    ensures DottedQuad(a, b, c, d) != DottedQuad(a, b, c, e)
  {
    if DottedQuad(a, b, c, d) == DottedQuad(a, b, c, e) {
      DottedQuadInjective(a, b, c, d, a, b, c, e);
    }
  }

  /** Deduplicating five values whose first four differ leaves four or five. */
  lemma DedupOfFive<T>(s: T, v1: T, v2: T, v3: T, e: T)
    requires s != v1 && s != v2 && s != v3 && v1 != v2 && v1 != v3 && v2 != v3
    ensures |Dedup([s, v1, v2, v3, e])| == if e in [s, v1, v2, v3] then 4 else 5
  {
    var four := [s, v1, v2, v3];
    assert Distinct(four);
    DedupOfDistinct(four);
    DedupSnoc(four, e);
    assert four + [e] == [s, v1, v2, v3, e];
  }

  /**
   * For a range whose start is a dotted quad, the start and its three
   * neighbours are four different addresses, so the set has four elements
   * when the end is one of them and five otherwise.
   */
  lemma CandidatesOfDottedQuad(a: nat, b: nat, c: nat, d: nat, end: string)
    ensures var r := Range(DottedQuad(a, b, c, d), end);
            |Candidates(r)|
            == if end in [DottedQuad(a, b, c, d), DottedQuad(a, b, c, d + 1), DottedQuad(a, b, c, d + 2),
                          DottedQuad(a, b, c, d + 3)] then 4 else 5
  {
    NextAddressNoCarry(a, b, c, d, 1);
    NextAddressNoCarry(a, b, c, d, 2);
    NextAddressNoCarry(a, b, c, d, 3);
    LastOctetDiffers(a, b, c, d, d + 1);
    LastOctetDiffers(a, b, c, d, d + 2);
    LastOctetDiffers(a, b, c, d, d + 3);
    LastOctetDiffers(a, b, c, d + 1, d + 2);
    LastOctetDiffers(a, b, c, d + 1, d + 3);
    LastOctetDiffers(a, b, c, d + 2, d + 3);
    DedupOfFive(DottedQuad(a, b, c, d), DottedQuad(a, b, c, d + 1), DottedQuad(a, b, c, d + 2),
                DottedQuad(a, b, c, d + 3), end);
  }

  lemma PrintedOctets()
    ensures NatToString(0) == "0" && NatToString(10) == "10"
    ensures NatToString(254) == "254" && NatToString(257) == "257"
  {
    assert NatToString(25) == "25" by {
      assert NatToString(2) == "2";
    }
  }

  lemma QuadTexts()
    ensures DottedQuad(10, 0, 0, 254) == "10.0.0.254"
    ensures DottedQuad(10, 0, 0, 257) == "10.0.0.257"
  {
    PrintedOctets();
    JoinFour("10", "0", "0", "254", '.');
    JoinFour("10", "0", "0", "257", '.');
  }

  /** The "+k" neighbours are textual: the last part is not carried into the third, nor capped at 255. */
  lemma NeighbourPastOctet()
    ensures NextAddress("10.0.0.254", 3) == "10.0.0.257"
  {
    QuadTexts();
    NextAddressNoCarry(10, 0, 0, 254, 3);
  }

  // ---------------------------------------------------------------- the whole sample

  lemma SampleOfAppend(rs: seq<Range>, r: Range)
    ensures SampleOf(rs + [r]) == SampleOf(rs) + Candidates(r)
  {
    assert (rs + [r])[..|rs|] == rs;
  }

  lemma SampleOfStep(rs: seq<Range>, r: nat)
    requires r < |rs|
    ensures SampleOf(rs[..r + 1]) == SampleOf(rs[..r]) + Candidates(rs[r])
  {
    assert rs[..r + 1] == rs[..r] + [rs[r]];
    SampleOfAppend(rs[..r], rs[r]);
  }

  /** Each checked range contributes between one and five addresses. */
  lemma SampleOfSize(rs: seq<Range>)
    ensures |rs| <= |SampleOf(rs)| <= 5 * |rs|
  {
    forall i | 0 <= i < |rs| ensures 1 <= |Candidates(rs[i])| <= 5 {
      CandidatesFacts(rs[i]);
    }
    FlatMapLength(Candidates, rs, 1, 5);
  }

  /** The sizes of the per-range sets, added up range by range. */
  function CandidateTotal(rs: seq<Range>): nat
    decreases |rs|
  {
    if |rs| == 0 then 0 else CandidateTotal(rs[..|rs| - 1]) + |Candidates(rs[|rs| - 1])|
  }

  /** The number of probed addresses is the sum of the sizes of the per-range sets: duplicates across ranges are kept. */
  lemma {:induction false} SampleOfCount(rs: seq<Range>)
    ensures |SampleOf(rs)| == CandidateTotal(rs)
    decreases |rs|
  {
    if |rs| > 0 {
      SampleOfCount(rs[..|rs| - 1]);
    }
  }

  /** An address is sampled exactly when it is a candidate of some checked range. */
  lemma SampleOfMembers(rs: seq<Range>, x: string)
    ensures x in SampleOf(rs) <==> exists i | 0 <= i < |rs| :: x in Candidates(rs[i])
  {
    FlatMapMembers(Candidates, rs, x);
  }

  /** A region check probes at most fifteen addresses, and none when no range survives the filter. */
  lemma RegionSampleBounds(rs: seq<Range>)
    ensures |RegionSample(rs)| <= 15
    ensures |RegionSample(rs)| == 0 <==> ValidRanges(rs) == []
  {
    SampleOfSize(RangesToCheck(rs));
  }
}
