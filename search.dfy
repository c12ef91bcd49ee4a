/**
 * The search of the alert script's `main`: every departure day, trip length and destination
 * of the grid is queried, the cheapest offer of each answer that is within the price ceiling
 * is a candidate, the cheapest candidate (the first one among equals) is kept, and it is
 * saved and sent only when it is strictly cheaper than the stored best.
 *
 * Dates are day numbers. The flight search itself is the function `fetch`: None when the
 * request gave no response or a response that is not ok, otherwise the offers of its `data`.
 */
module PriceAlert {
  import opened Wrappers
  import opened Offers

  /** The search settings; `today` is the day the script runs. */
  datatype Config = Config(
    today: int, startInDays: int, rangeDays: int, stepDays: int,
    durMin: int, durMax: int, destinations: seq<string>, maxPrice: int)

  function StartDate(cfg: Config): int
  {
    cfg.today + cfg.startInDays
  }

  function EndDate(cfg: Config): int
  {
    StartDate(cfg) + cfg.rangeDays
  }

  /** One flight search: departure day, trip length in days, destination. */
  datatype Query = Query(depart: int, duration: int, dest: string)

  function ReturnDate(q: Query): int
  {
    q.depart + q.duration
  }

  /** A candidate trip, `cand` in the script. */
  datatype Candidate = Candidate(
    total: int, dest: string, depart: int, ret: int, durationDays: int,
    validating: seq<string>, carriers: seq<string>)

  // ---------------------------------------------------------------------------------------
  // The grid, in the order of the three nested loops
  // ---------------------------------------------------------------------------------------

  /** One query per destination, in order. */
  function DestQueries(dep: int, duration: int, dests: seq<string>): seq<Query>
  {
    if dests == [] then [] else [Query(dep, duration, dests[0])] + DestQueries(dep, duration, dests[1..])
  }

  /** Trip lengths `duration` to `durMax`, each with every destination. */
  function DurationQueries(dep: int, duration: int, durMax: int, dests: seq<string>): seq<Query>
    decreases durMax - duration
  {
    if duration > durMax then []
    else DestQueries(dep, duration, dests) + DurationQueries(dep, duration + 1, durMax, dests)
  }

  /**
   * The departure loop ends: the step is positive, or the range is negative so that the loop
   * is never entered. With a zero step and a non-negative range `main` never ends, and with a
   * negative step it walks back until the date type overflows.
   */
  predicate Ends(cfg: Config)
  {
    cfg.stepDays > 0 || cfg.rangeDays < 0
  }

  /** Departure days from `dep` up to the end date, `stepDays` apart. */
  function GridFrom(dep: int, cfg: Config): seq<Query>
    requires cfg.stepDays > 0 || dep > EndDate(cfg)
    decreases EndDate(cfg) - dep
  {
    if dep > EndDate(cfg) then []
    else DurationQueries(dep, cfg.durMin, cfg.durMax, cfg.destinations) + GridFrom(dep + cfg.stepDays, cfg)
  }

  /** Every query of one run, in the order they are made. */
  function Grid(cfg: Config): seq<Query>
    requires Ends(cfg)
  {
    GridFrom(StartDate(cfg), cfg)
  }

  /** How many departure days the loop visits: `start + i * stepDays` up to the end date. */
  function DepartureDays(cfg: Config): int
    requires Ends(cfg)
  {
    if cfg.rangeDays < 0 then 0 else cfg.rangeDays / cfg.stepDays + 1
  }

  /** How many trip lengths each day is searched with: `DUR_MIN` to `DUR_MAX`. */
  function TripLengths(cfg: Config): int
  {
    if cfg.durMax < cfg.durMin then 0 else cfg.durMax - cfg.durMin + 1
  }

  lemma {:induction false} DestQueriesLength(dep: int, duration: int, dests: seq<string>)
    ensures |DestQueries(dep, duration, dests)| == |dests|
  {
    if dests != [] {
      DestQueriesLength(dep, duration, dests[1..]);
    }
  }

  lemma {:induction false} DurationQueriesLength(dep: int, duration: int, durMax: int, dests: seq<string>)
    ensures |DurationQueries(dep, duration, durMax, dests)| ==
      (if duration > durMax then 0 else durMax - duration + 1) * |dests|
    decreases durMax - duration
  {
    if duration <= durMax {
      DestQueriesLength(dep, duration, dests);
      DurationQueriesLength(dep, duration + 1, durMax, dests);
      var k := durMax - duration;
      assert (k + 1) * |dests| == |dests| + k * |dests|;
    }
  }

  /** Division is fixed by a quotient and a remainder below the divisor. */
  lemma DivUnique(x: int, d: int, q: int, r: int)
    requires d > 0 && 0 <= r < d && x == q * d + r
    ensures x / d == q
  {
    var q' := x / d;
    var r' := x % d;
    assert x == q' * d + r' && 0 <= r' < d;
    assert (q - q') * d == r' - r;
    if q' < q {
      MulAtLeast(q - q', d);
      assert false;
    } else if q < q' {
      MulAtLeast(q' - q, d);
      assert false;
    }
  }

  lemma MulAtLeast(k: int, d: int)
    requires k >= 1 && d > 0
    ensures k * d >= d
  {
    assert k * d == (k - 1) * d + d;
  }

  /** One more step before the end date is one more departure day. */
  lemma DaysStep(x: int, step: int)
    requires step > 0 && x >= step
    ensures (x - step) / step + 1 == x / step
  {
    var q := (x - step) / step;
    var r := (x - step) % step;
    assert x - step == q * step + r && 0 <= r < step;
    assert x == (q + 1) * step + r;
    DivUnique(x, step, q + 1, r);
  }

  lemma {:induction false} GridFromLength(dep: int, cfg: Config)
    requires cfg.stepDays > 0 || dep > EndDate(cfg)
    ensures |GridFrom(dep, cfg)| ==
      (if dep > EndDate(cfg) then 0 else (EndDate(cfg) - dep) / cfg.stepDays + 1)
      * (TripLengths(cfg) * |cfg.destinations|)
    decreases EndDate(cfg) - dep
  {
    if dep <= EndDate(cfg) {
      var step := cfg.stepDays;
      var perDay := TripLengths(cfg) * |cfg.destinations|;
      DurationQueriesLength(dep, cfg.durMin, cfg.durMax, cfg.destinations);
      GridFromLength(dep + step, cfg);
      var x := EndDate(cfg) - dep;
      if dep + step > EndDate(cfg) {
        assert x / step == 0;
      } else {
        DaysStep(x, step);
        var k := (x - step) / step + 1;
        assert (k + 1) * perDay == perDay + k * perDay;
      }
    }
  }

  /**
   * The loops make one query per departure day, trip length and destination position:
   * `DepartureDays * TripLengths * |destinations|` queries in all.
   */
  lemma GridSize(cfg: Config)
    requires Ends(cfg)
    ensures |Grid(cfg)| == DepartureDays(cfg) * TripLengths(cfg) * |cfg.destinations|
  {
    GridFromLength(StartDate(cfg), cfg);
    var perDay := TripLengths(cfg) * |cfg.destinations|;
    assert DepartureDays(cfg) * TripLengths(cfg) * |cfg.destinations| == DepartureDays(cfg) * perDay;
  }

  lemma {:induction false} DestQueriesMembers(dep: int, duration: int, dests: seq<string>, q: Query)
    ensures q in DestQueries(dep, duration, dests) <==> q.depart == dep && q.duration == duration && q.dest in dests
  {
    if dests != [] {
      DestQueriesMembers(dep, duration, dests[1..], q);
      assert dests == [dests[0]] + dests[1..];
    }
  }

  lemma {:induction false} DurationQueriesMembers(dep: int, duration: int, durMax: int, dests: seq<string>, q: Query)
    ensures q in DurationQueries(dep, duration, durMax, dests) <==>
      q.depart == dep && duration <= q.duration <= durMax && q.dest in dests
    decreases durMax - duration
  {
    if duration <= durMax {
      DestQueriesMembers(dep, duration, dests, q);
      DurationQueriesMembers(dep, duration + 1, durMax, dests, q);
    }
  }

  /** `day` is `from` plus a whole number of steps. */
  ghost predicate StepsFrom(day: int, from: int, step: int)
  {
    exists i: nat :: day == from + i * step
  }

  lemma {:induction false} GridFromMembers(dep: int, cfg: Config, q: Query)
    requires cfg.stepDays > 0 || dep > EndDate(cfg)
    ensures q in GridFrom(dep, cfg) <==>
      && StepsFrom(q.depart, dep, cfg.stepDays) && dep <= q.depart <= EndDate(cfg)
      && cfg.durMin <= q.duration <= cfg.durMax && q.dest in cfg.destinations
    decreases EndDate(cfg) - dep
  {
    var step := cfg.stepDays;
    if dep <= EndDate(cfg) {
      DurationQueriesMembers(dep, cfg.durMin, cfg.durMax, cfg.destinations, q);
      GridFromMembers(dep + step, cfg, q);
      if StepsFrom(q.depart, dep + step, step) {
        var i: nat :| q.depart == dep + step + i * step;
        assert q.depart == dep + (i + 1) * step;
      }
      if q.depart == dep {
        assert q.depart == dep + 0 * step;
      }
      if StepsFrom(q.depart, dep, step) && q.depart != dep {
        var i: nat :| q.depart == dep + i * step;
        assert i != 0;
        assert q.depart == dep + step + (i - 1) * step;
      }
    }
  }

  /**
   * The queries of a run: departure days `StartDate + i * stepDays` up to the end date, every
   * trip length from `durMin` to `durMax`, every destination; each comes back on
   * `depart + duration`.
   */
  lemma GridMembers(cfg: Config, q: Query)
    requires Ends(cfg)
    ensures q in Grid(cfg) <==>
      && StepsFrom(q.depart, StartDate(cfg), cfg.stepDays) && StartDate(cfg) <= q.depart <= EndDate(cfg)
      && cfg.durMin <= q.duration <= cfg.durMax && q.dest in cfg.destinations
  {
    GridFromMembers(StartDate(cfg), cfg, q);
  }

  // ---------------------------------------------------------------------------------------
  // Candidates and the running best
  // ---------------------------------------------------------------------------------------

  /**
   * The candidate a query gives, if any: the cheapest offer of the response, when its total
   * reads as a number within the ceiling, with the airlines of that offer.
   */
  function CandidateOf(q: Query, fetch: Query -> Option<seq<Offer>>, maxPrice: int): Option<Candidate>
  {
    match fetch(q)
    case None => None
    case Some(offers) =>
      match PickCheapestOffer(offers)
      case None => None
      case Some(cheapest) =>
        match cheapest.total
        case None => None
        case Some(total) =>
          if total > maxPrice then None
          else
            var air := AirlinesOf(cheapest);
            Some(Candidate(total, q.dest, q.depart, ReturnDate(q), q.duration, air.validating, air.carriers))
  }

  /** The candidates of the queries, in query order. */
  function Candidates(qs: seq<Query>, fetch: Query -> Option<seq<Offer>>, maxPrice: int): seq<Candidate>
  {
    if qs == [] then []
    else
      AsSeq(CandidateOf(qs[0], fetch, maxPrice)) + Candidates(qs[1..], fetch, maxPrice)
  }

  function AsSeq(c: Option<Candidate>): seq<Candidate>
  {
    if c.None? then [] else [c.value]
  }

  /** `best` after candidate `c`: replaced only by a strictly cheaper candidate. */
  function Better(best: Option<Candidate>, c: Candidate): Option<Candidate>
  {
    if best.None? || c.total < best.value.total then Some(c) else best
  }

  /** `best` after the candidates `cs`, one after the other. */
  function BestOf(best: Option<Candidate>, cs: seq<Candidate>): Option<Candidate>
    decreases cs
  {
    if cs == [] then best else BestOf(Better(best, cs[0]), cs[1..])
  }

  /** `best` after one query. */
  function Consider(best: Option<Candidate>, q: Query, fetch: Query -> Option<seq<Offer>>, maxPrice: int): Option<Candidate>
  {
    match CandidateOf(q, fetch, maxPrice)
    case None => best
    case Some(c) => Better(best, c)
  }

  /** `cs[i]` has the least total of `cs`, and every candidate before it costs strictly more. */
  predicate IsFirstMinimum(cs: seq<Candidate>, i: int)
  {
    && 0 <= i < |cs|
    && (forall j :: 0 <= j < |cs| ==> cs[i].total <= cs[j].total)
    && (forall j :: 0 <= j < i ==> cs[i].total < cs[j].total)
  }

  lemma {:induction false} BestOfSnoc(best: Option<Candidate>, cs: seq<Candidate>, c: Candidate)
    ensures BestOf(best, cs + [c]) == Better(BestOf(best, cs), c)
    decreases cs
  {
    if cs != [] {
      assert (cs + [c])[1..] == cs[1..] + [c];
      BestOfSnoc(Better(best, cs[0]), cs[1..], c);
    }
  }

  /**
   * The best after all candidates: none exactly when there is no candidate, otherwise the
   * first candidate of least total.
   */
  lemma {:induction false} BestIsFirstMinimum(cs: seq<Candidate>)
    ensures BestOf(None, cs).None? <==> cs == []
    ensures BestOf(None, cs).Some? ==> exists i :: IsFirstMinimum(cs, i) && cs[i] == BestOf(None, cs).value
  {
    if cs != [] {
      var init, c := cs[..|cs| - 1], cs[|cs| - 1];
      assert cs == init + [c];
      BestIsFirstMinimum(init);
      BestOfSnoc(None, init, c);
      var b := BestOf(None, init);
      if b.None? || c.total < b.value.total {
        if b.Some? {
          var i :| IsFirstMinimum(init, i) && init[i] == b.value;
        }
        assert IsFirstMinimum(cs, |cs| - 1);
      } else {
        var i :| IsFirstMinimum(init, i) && init[i] == b.value;
        assert IsFirstMinimum(cs, i);
      }
    }
  }

  /** Every candidate comes from one of the queries, returns `duration` days after it leaves, and is within the ceiling. */
  lemma {:induction false} CandidatesFromQueries(qs: seq<Query>, fetch: Query -> Option<seq<Offer>>, maxPrice: int)
    ensures forall c :: c in Candidates(qs, fetch, maxPrice) ==>
      && c.total <= maxPrice && c.ret == c.depart + c.durationDays
      && Query(c.depart, c.durationDays, c.dest) in qs
    ensures forall q :: q in qs && CandidateOf(q, fetch, maxPrice).Some? ==>
      CandidateOf(q, fetch, maxPrice).value in Candidates(qs, fetch, maxPrice)
  {
    if qs != [] {
      CandidatesFromQueries(qs[1..], fetch, maxPrice);
      assert forall q :: q in qs[1..] ==> q in qs;
      assert forall q :: q in qs ==> q == qs[0] || q in qs[1..];
    }
  }

  lemma {:induction false} BestOfAppend(best: Option<Candidate>, cs: seq<Candidate>, ds: seq<Candidate>)
    ensures BestOf(best, cs + ds) == BestOf(BestOf(best, cs), ds)
    decreases cs
  {
    if cs == [] {
      assert cs + ds == ds;
    } else {
      assert (cs + ds)[0] == cs[0] && (cs + ds)[1..] == cs[1..] + ds;
      BestOfAppend(Better(best, cs[0]), cs[1..], ds);
    }
  }

  lemma {:induction false} CandidatesAppend(qs: seq<Query>, rs: seq<Query>, fetch: Query -> Option<seq<Offer>>, maxPrice: int)
    ensures Candidates(qs + rs, fetch, maxPrice) == Candidates(qs, fetch, maxPrice) + Candidates(rs, fetch, maxPrice)
  {
    if qs == [] {
      assert qs + rs == rs;
    } else {
      assert (qs + rs)[0] == qs[0] && (qs + rs)[1..] == qs[1..] + rs;
      CandidatesAppend(qs[1..], rs, fetch, maxPrice);
    }
  }

  /** The best after the queries `qs`, then after `rs`. */
  lemma BestAfterAppend(best: Option<Candidate>, qs: seq<Query>, rs: seq<Query>, fetch: Query -> Option<seq<Offer>>, maxPrice: int)
    ensures BestOf(best, Candidates(qs + rs, fetch, maxPrice)) ==
      BestOf(BestOf(best, Candidates(qs, fetch, maxPrice)), Candidates(rs, fetch, maxPrice))
  {
    CandidatesAppend(qs, rs, fetch, maxPrice);
    BestOfAppend(best, Candidates(qs, fetch, maxPrice), Candidates(rs, fetch, maxPrice));
  }

  // ---------------------------------------------------------------------------------------
  // The search loop
  // ---------------------------------------------------------------------------------------

  /** The best after each destination in turn, for one departure day and trip length. */
  function TripBest(best: Option<Candidate>, dep: int, duration: int, dests: seq<string>,
                    fetch: Query -> Option<seq<Offer>>, maxPrice: int): Option<Candidate>
    decreases dests
  {
    if dests == [] then best
    else TripBest(Consider(best, Query(dep, duration, dests[0]), fetch, maxPrice), dep, duration, dests[1..], fetch, maxPrice)
  }

  /** The best after each trip length from `duration` to `durMax`, for one departure day. */
  function DayBest(best: Option<Candidate>, dep: int, duration: int, durMax: int, dests: seq<string>,
                   fetch: Query -> Option<seq<Offer>>, maxPrice: int): Option<Candidate>
    decreases durMax - duration
  {
    if duration > durMax then best
    else DayBest(TripBest(best, dep, duration, dests, fetch, maxPrice), dep, duration + 1, durMax, dests, fetch, maxPrice)
  }

  /** The best after each departure day from `dep` on. */
  function GridBest(best: Option<Candidate>, dep: int, cfg: Config, fetch: Query -> Option<seq<Offer>>): Option<Candidate>
    requires cfg.stepDays > 0 || dep > EndDate(cfg)
    decreases EndDate(cfg) - dep
  {
    if dep > EndDate(cfg) then best
    else GridBest(DayBest(best, dep, cfg.durMin, cfg.durMax, cfg.destinations, fetch, cfg.maxPrice), dep + cfg.stepDays, cfg, fetch)
  }

  /** The best after one query and then `rest`. */
  lemma ConsiderFirst(best: Option<Candidate>, q: Query, rest: seq<Query>, fetch: Query -> Option<seq<Offer>>, maxPrice: int)
    ensures BestOf(best, Candidates([q] + rest, fetch, maxPrice)) ==
      BestOf(Consider(best, q, fetch, maxPrice), Candidates(rest, fetch, maxPrice))
  {
    var qs := [q] + rest;
    assert qs[0] == q && qs[1..] == rest;
    var tail := Candidates(rest, fetch, maxPrice);
    match CandidateOf(q, fetch, maxPrice) {
      case None =>
        assert Candidates(qs, fetch, maxPrice) == [] + tail;
        assert [] + tail == tail;
      case Some(c) =>
        var cs := [c] + tail;
        assert Candidates(qs, fetch, maxPrice) == cs;
        assert cs[0] == c && cs[1..] == tail;
    }
  }

  lemma {:induction false} TripBestIsBestOf(best: Option<Candidate>, dep: int, duration: int, dests: seq<string>,
                                            fetch: Query -> Option<seq<Offer>>, maxPrice: int)
    ensures TripBest(best, dep, duration, dests, fetch, maxPrice) ==
      BestOf(best, Candidates(DestQueries(dep, duration, dests), fetch, maxPrice))
    decreases dests
  {
    if dests != [] {
      var q := Query(dep, duration, dests[0]);
      var rest := DestQueries(dep, duration, dests[1..]);
      assert DestQueries(dep, duration, dests) == [q] + rest;
      TripBestIsBestOf(Consider(best, q, fetch, maxPrice), dep, duration, dests[1..], fetch, maxPrice);
      ConsiderFirst(best, q, rest, fetch, maxPrice);
    }
  }

  lemma {:induction false} DayBestIsBestOf(best: Option<Candidate>, dep: int, duration: int, durMax: int, dests: seq<string>,
                                           fetch: Query -> Option<seq<Offer>>, maxPrice: int)
    ensures DayBest(best, dep, duration, durMax, dests, fetch, maxPrice) ==
      BestOf(best, Candidates(DurationQueries(dep, duration, durMax, dests), fetch, maxPrice))
    decreases durMax - duration
  {
    if duration <= durMax {
      var trip := TripBest(best, dep, duration, dests, fetch, maxPrice);
      TripBestIsBestOf(best, dep, duration, dests, fetch, maxPrice);
      DayBestIsBestOf(trip, dep, duration + 1, durMax, dests, fetch, maxPrice);
      BestAfterAppend(best, DestQueries(dep, duration, dests), DurationQueries(dep, duration + 1, durMax, dests), fetch, maxPrice);
    }
  }

  lemma {:induction false} GridBestIsBestOf(best: Option<Candidate>, dep: int, cfg: Config, fetch: Query -> Option<seq<Offer>>)
    requires cfg.stepDays > 0 || dep > EndDate(cfg)
    ensures GridBest(best, dep, cfg, fetch) == BestOf(best, Candidates(GridFrom(dep, cfg), fetch, cfg.maxPrice))
    decreases EndDate(cfg) - dep
  {
    if dep <= EndDate(cfg) {
      var next := dep + cfg.stepDays;
      var day := DayBest(best, dep, cfg.durMin, cfg.durMax, cfg.destinations, fetch, cfg.maxPrice);
      var here := DurationQueries(dep, cfg.durMin, cfg.durMax, cfg.destinations);
      var later := GridFrom(next, cfg);
      assert GridBest(best, dep, cfg, fetch) == GridBest(day, next, cfg, fetch);
      GridBestIsBestOf(day, next, cfg, fetch);
      DayBestIsBestOf(best, dep, cfg.durMin, cfg.durMax, cfg.destinations, fetch, cfg.maxPrice);
      BestAfterAppend(best, here, later, fetch, cfg.maxPrice);
      assert GridFrom(dep, cfg) == here + later;
    }
  }

  /**
   * The body of the innermost loop: query one destination and keep its candidate when it is
   * strictly cheaper than the best so far.
   */
  method Visit(best: Option<Candidate>, dep: int, duration: int, retDate: int, dest: string,
               fetch: Query -> Option<seq<Offer>>, maxPrice: int)
    returns (next: Option<Candidate>)
    requires retDate == dep + duration
    ensures next == Consider(best, Query(dep, duration, dest), fetch, maxPrice)
  {
    next := best;
    var r := fetch(Query(dep, duration, dest));
    if r.None? {
      return;
    }
    var cheapest := PickCheapestOffer(r.value);
    if cheapest.None? || cheapest.value.total.None? {
      return;
    }
    var total := cheapest.value.total.value;
    if total > maxPrice {
      return;
    }
    var air := ExtractAirlines(cheapest.value);
    var cand := Candidate(total, dest, dep, retDate, duration, air.validating, air.carriers);
    assert CandidateOf(Query(dep, duration, dest), fetch, maxPrice) == Some(cand);
    if best.None? || cand.total < best.value.total {
      next := Some(cand);
    }
  }

  /**
   * The nested loops of `main`: ends with the first cheapest candidate of the whole grid,
   * or None when no query gave one.
   */
  method Search(cfg: Config, fetch: Query -> Option<seq<Offer>>) returns (best: Option<Candidate>)
    requires Ends(cfg)
    ensures best == BestOf(None, Candidates(Grid(cfg), fetch, cfg.maxPrice))
  {
    ghost var goal := GridBest(None, StartDate(cfg), cfg, fetch);
    var dests := cfg.destinations;
    best := None;
    var endDate := EndDate(cfg);
    var dep := StartDate(cfg);
    while dep <= endDate
      invariant cfg.stepDays > 0 || dep > endDate
      invariant GridBest(best, dep, cfg, fetch) == goal
      decreases endDate - dep
    {
      ghost var dayGoal := DayBest(best, dep, cfg.durMin, cfg.durMax, dests, fetch, cfg.maxPrice);
      var duration := cfg.durMin;
      while duration <= cfg.durMax
        invariant DayBest(best, dep, duration, cfg.durMax, dests, fetch, cfg.maxPrice) == dayGoal
        decreases cfg.durMax - duration
      {
        ghost var tripGoal := TripBest(best, dep, duration, dests, fetch, cfg.maxPrice);
        var retDate := dep + duration;
        assert dests[0..] == dests;
        var k := 0;
        while k < |dests|
          invariant 0 <= k <= |dests|
          invariant TripBest(best, dep, duration, dests[k..], fetch, cfg.maxPrice) == tripGoal
        {
          assert dests[k..][1..] == dests[k + 1..];
          best := Visit(best, dep, duration, retDate, dests[k], fetch, cfg.maxPrice);
          k := k + 1;
        }
        duration := duration + 1;
      }
      dep := dep + cfg.stepDays;
    }
    GridBestIsBestOf(None, StartDate(cfg), cfg, fetch);
  }

  // ---------------------------------------------------------------------------------------
  // Whether to save and send
  // ---------------------------------------------------------------------------------------

  /** What the end of `main` does with the best candidate. */
  datatype Decision = NothingFound | Improved(best: Candidate) | NotImproved(best: Candidate)

  /** Save and send only when there was no stored best or the new one is strictly cheaper. */
  function Decide(best: Option<Candidate>, prevBest: Option<int>): Decision
  {
    match best
    case None => NothingFound
    case Some(b) => if prevBest.None? || b.total < prevBest.value then Improved(b) else NotImproved(b)
  }

  /** The stored best after the decision. */
  function StoredAfter(prevBest: Option<int>, d: Decision): Option<int>
  {
    if d.Improved? then Some(d.best.total) else prevBest
  }

  /**
   * Nothing is saved or sent without a candidate; with one, it is saved and sent exactly when
   * there was no stored best or it is strictly cheaper; a tie does not alert.
   */
  lemma DecideSpec(best: Option<Candidate>, prevBest: Option<int>)
    ensures Decide(best, prevBest).Improved? <==>
      best.Some? && (prevBest.None? || best.value.total < prevBest.value)
    ensures best.Some? && prevBest == Some(best.value.total) ==> Decide(best, prevBest).NotImproved?
    ensures StoredAfter(prevBest, Decide(best, prevBest)) == prevBest <==> !Decide(best, prevBest).Improved?
    ensures Decide(best, prevBest).NothingFound? <==> best.None?
  {
  }

  /** The stored best never goes up, and once there is one there always is. */
  lemma StoredBestNeverIncreases(best: Option<Candidate>, prevBest: Option<int>)
    requires prevBest.Some?
    ensures var stored := StoredAfter(prevBest, Decide(best, prevBest));
      stored.Some? && stored.value <= prevBest.value
  {
  }

  /** Running again on the same results does not alert a second time. */
  lemma NoRepeatedAlert(best: Option<Candidate>, prevBest: Option<int>)
    ensures var stored := StoredAfter(prevBest, Decide(best, prevBest));
      !Decide(best, stored).Improved?
  {
  }

  /** What one run hands to Telegram. */
  datatype Alert = Alert(best: Candidate, airlineLine: string)

  /**
   * One run of `main` past its configuration: search, then save and send the best when it
   * improves the stored one. Returns the stored best afterwards and the alert sent, if any.
   */
  method RunOnce(cfg: Config, fetch: Query -> Option<seq<Offer>>, names: string -> Option<string>, prevBest: Option<int>)
    returns (stored: Option<int>, alert: Option<Alert>)
    requires Ends(cfg)
    ensures var d := Decide(BestOf(None, Candidates(Grid(cfg), fetch, cfg.maxPrice)), prevBest);
      && stored == StoredAfter(prevBest, d)
      && (alert.Some? <==> d.Improved?)
      && (alert.Some? ==> alert.value == Alert(d.best, AirlineLine(d.best.validating, d.best.carriers, names)))
  {
    var best := Search(cfg, fetch);
    if best.None? {
      return prevBest, None;
    }
    var improved := prevBest.None? || best.value.total < prevBest.value;
    var airlineLine := FormatAirlines(best.value.validating, best.value.carriers, names);
    if improved {
      stored := Some(best.value.total);
      alert := Some(Alert(best.value, airlineLine));
    } else {
      stored := prevBest;
      alert := None;
    }
  }

  /**
   * An alert is only ever about the cheapest candidate of the grid, the first among equals,
   * within the ceiling, strictly below the stored best if there was one.
   */
  lemma AlertIsCheapestInGrid(cfg: Config, fetch: Query -> Option<seq<Offer>>, prevBest: Option<int>)
    requires Ends(cfg)
    ensures var cs := Candidates(Grid(cfg), fetch, cfg.maxPrice);
      var d := Decide(BestOf(None, cs), prevBest);
      d.Improved? ==>
        && (exists i :: IsFirstMinimum(cs, i) && cs[i] == d.best)
        && d.best.total <= cfg.maxPrice
        && (prevBest.Some? ==> d.best.total < prevBest.value)
        && (forall q :: q in Grid(cfg) && CandidateOf(q, fetch, cfg.maxPrice).Some? ==>
              d.best.total <= CandidateOf(q, fetch, cfg.maxPrice).value.total)
  {
    var cs := Candidates(Grid(cfg), fetch, cfg.maxPrice);
    BestIsFirstMinimum(cs);
    CandidatesFromQueries(Grid(cfg), fetch, cfg.maxPrice);
    var d := Decide(BestOf(None, cs), prevBest);
    if d.Improved? {
      var i :| IsFirstMinimum(cs, i) && cs[i] == d.best;
      forall q | q in Grid(cfg) && CandidateOf(q, fetch, cfg.maxPrice).Some?
        ensures d.best.total <= CandidateOf(q, fetch, cfg.maxPrice).value.total
      {
        var j :| 0 <= j < |cs| && cs[j] == CandidateOf(q, fetch, cfg.maxPrice).value;
      }
    }
  }
}
