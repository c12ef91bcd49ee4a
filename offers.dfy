/**
 * Reading flight offers: choosing the cheapest offer of a response, collecting the airline
 * codes of an offer, and rendering them as the "Aerolínea(s)" line of the alert.
 */
module Offers {
  import opened Wrappers
  import opened Text

  /** One flight segment; a missing or null `carrierCode` is the empty string. */
  datatype Segment = Segment(carrierCode: string)

  datatype Itinerary = Itinerary(segments: seq<Segment>)

  /**
   * One flight offer. `total` is `price.total` read as a number, or None when reading or
   * converting it raises. A missing or null list is the empty list, and a null entry of
   * `validatingAirlineCodes` is the empty string.
   */
  datatype Offer = Offer(total: Option<int>, validatingAirlineCodes: seq<string>, itineraries: seq<Itinerary>)

  /** What `extract_airlines` returns: the `validating` and `carriers` lists. */
  datatype Airlines = Airlines(validating: seq<string>, carriers: seq<string>)

  // ---------------------------------------------------------------------------------------
  // pick_cheapest_offer
  // ---------------------------------------------------------------------------------------

  /** Every offer has a readable total. */
  predicate AllPriced(offers: seq<Offer>)
  {
    forall i :: 0 <= i < |offers| ==> offers[i].total.Some?
  }

  /** `offers[k]` has the least total, and every offer before it costs strictly more. */
  predicate IsFirstCheapest(offers: seq<Offer>, k: int)
  {
    && AllPriced(offers)
    && 0 <= k < |offers|
    && (forall j :: 0 <= j < |offers| ==> offers[k].total.value <= offers[j].total.value)
    && (forall j :: 0 <= j < k ==> offers[k].total.value < offers[j].total.value)
  }

  /** The left-to-right scan of `min(..., key=...)`: a later offer wins only when strictly cheaper. */
  function CheapestIndex(offers: seq<Offer>): (k: nat)
    requires offers != [] && AllPriced(offers)
    ensures IsFirstCheapest(offers, k)
  {
    if |offers| == 1 then 0
    else
      var init := offers[..|offers| - 1];
      assert forall i :: 0 <= i < |init| ==> init[i] == offers[i];
      var k := CheapestIndex(init);
      if offers[|offers| - 1].total.value < offers[k].total.value then |offers| - 1 else k
  }

  /**
   * `pick_cheapest_offer`: nothing for an empty list or when some total cannot be read,
   * otherwise the first offer of least total.
   */
  function PickCheapestOffer(offers: seq<Offer>): (r: Option<Offer>)
    ensures r.None? <==> offers == [] || !AllPriced(offers)
    ensures r.Some? ==> exists k :: IsFirstCheapest(offers, k) && r.value == offers[k]
  {
    if offers == [] || !AllPriced(offers) then None
    else Some(offers[CheapestIndex(offers)])
  }

  // ---------------------------------------------------------------------------------------
  // extract_airlines
  // ---------------------------------------------------------------------------------------

  /** `[c.strip().upper() for c in validating if c]`. */
  function ValidatingCodes(codes: seq<string>): seq<string>
  {
    if codes == [] then []
    else (if codes[0] != "" then [NormalizeCode(codes[0])] else []) + ValidatingCodes(codes[1..])
  }

  /** The positions, ascending, of the non-empty entries of `codes` from `start` on. */
  function PositionsFrom(codes: seq<string>, start: nat): (p: seq<nat>)
    ensures forall k :: 0 <= k < |p| ==> start <= p[k] < |codes|
    decreases |codes| - start
  {
    if start >= |codes| then []
    else (if codes[start] != "" then [start] else []) + PositionsFrom(codes, start + 1)
  }

  /** The normalised entries of `codes` at the positions `p`, in the order of `p`. */
  function CodesAt(codes: seq<string>, p: seq<nat>): seq<string>
    requires forall k :: 0 <= k < |p| ==> p[k] < |codes|
  {
    if p == [] then [] else [NormalizeCode(codes[p[0]])] + CodesAt(codes, p[1..])
  }

  lemma {:induction false} CodesAtIndex(codes: seq<string>, p: seq<nat>)
    requires forall k :: 0 <= k < |p| ==> p[k] < |codes|
    ensures |CodesAt(codes, p)| == |p|
    ensures forall k :: 0 <= k < |p| ==> CodesAt(codes, p)[k] == NormalizeCode(codes[p[k]])
  {
    if p != [] {
      CodesAtIndex(codes, p[1..]);
    }
  }

  /** The positions listed are exactly those of the non-empty entries from `start` on, ascending. */
  lemma {:induction false} PositionsFromSpec(codes: seq<string>, start: nat)
    ensures var p := PositionsFrom(codes, start);
      && (forall k :: 0 <= k < |p| ==> codes[p[k]] != "")
      && (forall k, l :: 0 <= k < l < |p| ==> p[k] < p[l])
      && (forall i :: start <= i < |codes| && codes[i] != "" ==> i in p)
    decreases |codes| - start
  {
    if start < |codes| {
      PositionsFromSpec(codes, start + 1);
    }
  }

  lemma {:induction false} ValidatingCodesFrom(codes: seq<string>, start: nat)
    requires start <= |codes|
    ensures ValidatingCodes(codes[start..]) == CodesAt(codes, PositionsFrom(codes, start))
    decreases |codes| - start
  {
    if start < |codes| {
      var t := codes[start..];
      assert t[0] == codes[start] && t[1..] == codes[start + 1..];
      ValidatingCodesFrom(codes, start + 1);
      var rest := PositionsFrom(codes, start + 1);
      if codes[start] != "" {
        var p := [start] + rest;
        assert p[0] == start && p[1..] == rest;
      } else {
        assert [] + rest == rest;
      }
    }
  }

  /** The positions of the non-empty entries of `codes`, ascending. */
  function NonEmptyPositions(codes: seq<string>): seq<nat>
  {
    PositionsFrom(codes, 0)
  }

  /**
   * The validating codes are the non-empty input entries, each normalised, in their input
   * order: entry `k` of the result is entry `p[k]` of the input, normalised, where `p` lists
   * ascending the positions of the non-empty entries; each code is stripped and upper-case.
   */
  lemma ValidatingCodesSpec(codes: seq<string>)
    ensures var p := NonEmptyPositions(codes);
      && (forall k :: 0 <= k < |p| ==> codes[p[k]] != "")
      && (forall k, l :: 0 <= k < l < |p| ==> p[k] < p[l])
      && (forall i :: 0 <= i < |codes| && codes[i] != "" ==> i in p)
      && |ValidatingCodes(codes)| == |p|
      && (forall k :: 0 <= k < |p| ==> ValidatingCodes(codes)[k] == NormalizeCode(codes[p[k]]))
    ensures forall k :: 0 <= k < |ValidatingCodes(codes)| ==> IsNormalized(ValidatingCodes(codes)[k])
  {
    var p := NonEmptyPositions(codes);
    PositionsFromSpec(codes, 0);
    ValidatingCodesFrom(codes, 0);
    assert codes[0..] == codes;
    CodesAtIndex(codes, p);
    forall k | 0 <= k < |p|
      ensures IsNormalized(ValidatingCodes(codes)[k])
    {
      NormalizeSpec(codes[p[k]]);
    }
  }

  /** The validating codes keep their input order: the list of a concatenation is the concatenation of the lists. */
  lemma {:induction false} ValidatingCodesConcat(a: seq<string>, b: seq<string>)
    ensures ValidatingCodes(a + b) == ValidatingCodes(a) + ValidatingCodes(b)
  {
    if a != [] {
      assert (a + b)[1..] == a[1..] + b;
      ValidatingCodesConcat(a[1..], b);
    } else {
      assert a + b == b;
    }
  }

  /** The normalised carrier code of one segment (empty when it is missing). */
  function CarrierCode(seg: Segment): string
  {
    NormalizeCode(seg.carrierCode)
  }

  /** The non-empty normalised carrier codes of a list of segments. */
  function SegmentCodes(segs: seq<Segment>): set<string>
  {
    set j | 0 <= j < |segs| && CarrierCode(segs[j]) != "" :: CarrierCode(segs[j])
  }

  /** The non-empty normalised carrier codes of all segments of all itineraries. */
  function CarrierSet(its: seq<Itinerary>): set<string>
  {
    set i, j | 0 <= i < |its| && 0 <= j < |its[i].segments| && CarrierCode(its[i].segments[j]) != ""
      :: CarrierCode(its[i].segments[j])
  }

  /** Every collected code is non-empty, stripped and upper-case. */
  lemma CarrierSetNormalized(its: seq<Itinerary>)
    ensures forall c :: c in CarrierSet(its) ==> c != "" && IsNormalized(c)
  {
    forall c | c in CarrierSet(its)
      ensures IsNormalized(c)
    {
      var i, j :| 0 <= i < |its| && 0 <= j < |its[i].segments| && CarrierCode(its[i].segments[j]) == c;
      NormalizeSpec(its[i].segments[j].carrierCode);
    }
  }

  /** One more segment adds its code, if it has one. */
  lemma SegmentCodesStep(segs: seq<Segment>, j: nat)
    requires j < |segs|
    ensures SegmentCodes(segs[..j + 1]) ==
      SegmentCodes(segs[..j]) + (if CarrierCode(segs[j]) != "" then {CarrierCode(segs[j])} else {})
  {
    var pre, pre' := segs[..j], segs[..j + 1];
    var extra := if CarrierCode(segs[j]) != "" then {CarrierCode(segs[j])} else {};
    forall x | x in SegmentCodes(pre')
      ensures x in SegmentCodes(pre) + extra
    {
      var k :| 0 <= k < |pre'| && CarrierCode(pre'[k]) != "" && CarrierCode(pre'[k]) == x;
      if k < j {
        assert pre[k] == pre'[k];
      }
    }
    forall x | x in SegmentCodes(pre) + extra
      ensures x in SegmentCodes(pre')
    {
      if x in SegmentCodes(pre) {
        var k :| 0 <= k < |pre| && CarrierCode(pre[k]) != "" && CarrierCode(pre[k]) == x;
        assert pre'[k] == pre[k];
      } else {
        assert pre'[j] == segs[j];
      }
    }
  }

  /** One more itinerary adds the codes of its segments. */
  lemma CarrierSetStep(its: seq<Itinerary>, i: nat)
    requires i < |its|
    ensures CarrierSet(its[..i + 1]) == CarrierSet(its[..i]) + SegmentCodes(its[i].segments)
  {
    var pre, pre' := its[..i], its[..i + 1];
    var segs := its[i].segments;
    forall x | x in CarrierSet(pre')
      ensures x in CarrierSet(pre) + SegmentCodes(segs)
    {
      var k, j :| 0 <= k < |pre'| && 0 <= j < |pre'[k].segments|
        && CarrierCode(pre'[k].segments[j]) != "" && CarrierCode(pre'[k].segments[j]) == x;
      if k < i {
        assert pre[k] == pre'[k];
      } else {
        assert pre'[k] == its[i];
      }
    }
    forall x | x in CarrierSet(pre) + SegmentCodes(segs)
      ensures x in CarrierSet(pre')
    {
      if x in CarrierSet(pre) {
        var k, j :| 0 <= k < |pre| && 0 <= j < |pre[k].segments|
          && CarrierCode(pre[k].segments[j]) != "" && CarrierCode(pre[k].segments[j]) == x;
        assert pre'[k] == pre[k];
      } else {
        var j :| 0 <= j < |segs| && CarrierCode(segs[j]) != "" && CarrierCode(segs[j]) == x;
        assert pre'[i] == its[i];
        assert pre'[i].segments[j] == segs[j];
      }
    }
  }

  /** Every element is below every later one: sorted and without repeats. */
  predicate StrictlyAscending(s: seq<string>)
  {
    forall i, j :: 0 <= i < j < |s| ==> Less(s[i], s[j])
  }

  /** `m` is the least element of `s`. */
  predicate IsLeast(m: string, s: set<string>)
  {
    m in s && forall x :: x in s && x != m ==> Less(m, x)
  }

  /** Adding `y` to a set with least element `m` leaves `y` or `m` least. */
  lemma LeastOfInsert(y: string, m: string, rest: set<string>)
    requires IsLeast(m, rest) && y !in rest
    ensures IsLeast(y, rest + {y}) || IsLeast(m, rest + {y})
  {
    LessTotal(y, m);
    if Less(y, m) {
      forall x | x in rest + {y} && x != y
        ensures Less(y, x)
      {
        if x != m {
          LessTransitive(y, m, x);
        }
      }
    }
  }

  /** A non-empty set of strings has a least element. */
  lemma {:induction false} LeastExists(s: set<string>)
    requires s != {}
    ensures exists m :: IsLeast(m, s)
    decreases |s|
  {
    var y :| y in s;
    if s == {y} {
      assert IsLeast(y, s);
    } else {
      var rest := s - {y};
      assert |rest| < |s|;
      LeastExists(rest);
      var m :| IsLeast(m, rest);
      LeastOfInsert(y, m, rest);
      assert rest + {y} == s;
    }
  }

  /** `sorted(carriers)`: the elements of `s` in ascending order. */
  function SortedCodes(s: set<string>): (r: seq<string>)
    ensures StrictlyAscending(r)
    ensures forall x :: x in r <==> x in s
    ensures |r| == |s|
    decreases s
  {
    if s == {} then []
    else
      LeastExists(s);
      LessAsymmetric();
      var m :| IsLeast(m, s);
      [m] + SortedCodes(s - {m})
  }

  /** What `extract_airlines` computes for `offer`. */
  function AirlinesOf(offer: Offer): Airlines
  {
    Airlines(ValidatingCodes(offer.validatingAirlineCodes), SortedCodes(CarrierSet(offer.itineraries)))
  }

  /**
   * The airlines of an offer: the carriers are strictly ascending, each one non-empty,
   * stripped and upper-case, and they are exactly the codes found on the segments; the
   * validating codes are the non-empty validating entries, normalised, in their order.
   */
  lemma AirlinesOfSpec(offer: Offer)
    ensures var a := AirlinesOf(offer);
      var codes := offer.validatingAirlineCodes;
      var p := NonEmptyPositions(codes);
      && StrictlyAscending(a.carriers)
      && (forall c :: c in a.carriers <==> c in CarrierSet(offer.itineraries))
      && (forall i :: 0 <= i < |a.carriers| ==> a.carriers[i] != "" && IsNormalized(a.carriers[i]))
      && (forall i :: 0 <= i < |a.validating| ==> IsNormalized(a.validating[i]))
      && |a.validating| == |p|
      && (forall k :: 0 <= k < |p| ==> a.validating[k] == NormalizeCode(codes[p[k]]))
  {
    CarrierSetNormalized(offer.itineraries);
    ValidatingCodesSpec(offer.validatingAirlineCodes);
  }

  /**
   * `extract_airlines`: the nested loops gather the carrier codes of every segment into a
   * set, which is then sorted; the validating codes are normalised in their own order.
   */
  method ExtractAirlines(offer: Offer) returns (a: Airlines)
    ensures a == AirlinesOf(offer)
  {
    var carriers: set<string> := {};
    var its := offer.itineraries;
    assert CarrierSet(its[..0]) == {};
    for i := 0 to |its|
      invariant carriers == CarrierSet(its[..i])
    {
      var segs := its[i].segments;
      assert SegmentCodes(segs[..0]) == {};
      for j := 0 to |segs|
        invariant carriers == CarrierSet(its[..i]) + SegmentCodes(segs[..j])
      {
        var cc := NormalizeCode(segs[j].carrierCode);
        if cc != "" {
          carriers := carriers + {cc};
        }
        SegmentCodesStep(segs, j);
      }
      assert segs[..|segs|] == segs;
      CarrierSetStep(its, i);
    }
    assert its[..|its|] == its;
    a := Airlines(ValidatingCodes(offer.validatingAirlineCodes), SortedCodes(carriers));
  }

  // ---------------------------------------------------------------------------------------
  // format_airlines
  // ---------------------------------------------------------------------------------------

  /** At most this many codes are looked up and shown. */
  const MaxShown: nat := 5

  /** `f"{name} ({c})"` when the lookup gives a non-empty name, the bare code otherwise. */
  function AirlineLabel(code: string, name: Option<string>): string
  {
    if name.Some? && name.value != "" then name.value + " (" + code + ")" else code
  }

  /** `f"+{k} más"`. */
  function OverflowMarker(hidden: nat): string
  {
    "+" + NatToString(hidden) + " más"
  }

  /** `validating or carriers`. */
  function ChosenCodes(validating: seq<string>, carriers: seq<string>): seq<string>
  {
    if validating != [] then validating else carriers
  }

  function ShownCount(codes: seq<string>): nat
  {
    if |codes| < MaxShown then |codes| else MaxShown
  }

  /** The `parts` list of `format_airlines` before it is joined. */
  function AirlineParts(codes: seq<string>, names: string -> Option<string>): seq<string>
  {
    seq(ShownCount(codes), i requires 0 <= i < ShownCount(codes) => AirlineLabel(codes[i], names(codes[i])))
      + (if |codes| > MaxShown then [OverflowMarker(|codes| - MaxShown)] else [])
  }

  /** The line `format_airlines` returns. */
  function AirlineLine(validating: seq<string>, carriers: seq<string>, names: string -> Option<string>): string
  {
    var parts := AirlineParts(ChosenCodes(validating, carriers), names);
    if parts != [] then Join(parts, ", ") else "N/D"
  }

  /**
   * `format_airlines`, with the name lookup `am.airline_name` given as the function `names`.
   */
  method FormatAirlines(validating: seq<string>, carriers: seq<string>, names: string -> Option<string>)
    returns (line: string)
    ensures line == AirlineLine(validating, carriers, names)
  {
    var codes := if validating != [] then validating else carriers;
    var shown := codes[..ShownCount(codes)];
    var parts: seq<string> := [];
    for i := 0 to |shown|
      invariant parts == seq(i, k requires 0 <= k < i => AirlineLabel(codes[k], names(codes[k])))
    {
      var name := names(shown[i]);
      if name.Some? && name.value != "" {
        parts := parts + [name.value + " (" + shown[i] + ")"];
      } else {
        parts := parts + [shown[i]];
      }
    }
    assert codes == ChosenCodes(validating, carriers);
    assert parts == seq(ShownCount(codes), i requires 0 <= i < ShownCount(codes) => AirlineLabel(codes[i], names(codes[i])));
    if |codes| > MaxShown {
      parts := parts + [OverflowMarker(|codes| - MaxShown)];
    }
    assert parts == AirlineParts(codes, names);
    line := if parts != [] then Join(parts, ", ") else "N/D";
  }

  /** The parts: one label per code among the first five, then the overflow marker when codes were left out. */
  lemma AirlinePartsShape(codes: seq<string>, names: string -> Option<string>)
    ensures |AirlineParts(codes, names)| == ShownCount(codes) + (if |codes| > MaxShown then 1 else 0)
    ensures ShownCount(codes) + (if |codes| > MaxShown then |codes| - MaxShown else 0) == |codes|
    ensures ShownCount(codes) <= MaxShown
    ensures forall i :: 0 <= i < ShownCount(codes) ==>
      AirlineParts(codes, names)[i] == AirlineLabel(codes[i], names(codes[i]))
    ensures |codes| > MaxShown ==> AirlineParts(codes, names)[MaxShown] == OverflowMarker(|codes| - MaxShown)
  {
  }

  /** No name beyond the fifth code is used: lookups that agree on the first five codes give the same line. */
  lemma OnlyFirstFiveLookedUp(validating: seq<string>, carriers: seq<string>,
                              names: string -> Option<string>, names': string -> Option<string>)
    requires var codes := ChosenCodes(validating, carriers);
      forall i :: 0 <= i < ShownCount(codes) ==> names(codes[i]) == names'(codes[i])
    ensures AirlineLine(validating, carriers, names) == AirlineLine(validating, carriers, names')
  {
    var codes := ChosenCodes(validating, carriers);
    assert AirlineParts(codes, names) == AirlineParts(codes, names');
  }

  /** A join of two or more parts holds the separator right after the first part. */
  lemma JoinHoldsSeparator(parts: seq<string>, sep: string)
    requires |parts| >= 2
    ensures |Join(parts, sep)| >= |parts[0]| + |sep|
    ensures Join(parts, sep)[|parts[0]|..|parts[0]| + |sep|] == sep
  {
    var rest := Join(parts[1..], sep);
    assert Join(parts, sep) == parts[0] + sep + rest;
  }

  /**
   * The line is "N/D" exactly when there is no code, or when the only code is shown as the
   * text "N/D" itself.
   */
  lemma NotAvailableLine(validating: seq<string>, carriers: seq<string>, names: string -> Option<string>)
    ensures var codes := ChosenCodes(validating, carriers);
      AirlineLine(validating, carriers, names) == "N/D" <==>
        codes == [] || (|codes| == 1 && AirlineLabel(codes[0], names(codes[0])) == "N/D")
  {
    var codes := ChosenCodes(validating, carriers);
    var parts := AirlineParts(codes, names);
    AirlinePartsShape(codes, names);
    if |parts| >= 2 {
      JoinHoldsSeparator(parts, ", ");
      var line := Join(parts, ", ");
      assert line[|parts[0]|] == ',';
      assert ',' !in "N/D";
      assert line != "N/D";
    }
  }

  /**
   * The `if c` test comes before stripping: a validating entry that is only white space is
   * kept as an empty code, so the validating list is used and the carriers are not; for a
   * single such entry, with no name for the empty code, the line is empty rather than "N/D".
   */
  lemma BlankValidatingCodeHidesCarriers(codes: seq<string>, i: int, carriers: seq<string>,
                                         names: string -> Option<string>)
    requires 0 <= i < |codes| && codes[i] != "" && !HasNonSpace(codes[i])
    ensures "" in ValidatingCodes(codes)
    ensures ChosenCodes(ValidatingCodes(codes), carriers) == ValidatingCodes(codes)
    ensures |codes| == 1 && names("").None? ==> AirlineLine(ValidatingCodes(codes), carriers, names) == ""
  {
    ValidatingCodesSpec(codes);
    NormalizeSpec(codes[i]);
    var r := ValidatingCodes(codes);
    var p := NonEmptyPositions(codes);
    var k :| 0 <= k < |p| && p[k] == i;
    assert r[k] == "";
    if |codes| == 1 && names("").None? {
      assert codes[1..] == [];
      assert r == [""];
      assert AirlineParts(r, names) == [""];
    }
  }
}
