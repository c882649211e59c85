/** Impossible travel and new countries (`detect` in src/security.rs), and filing what was found
    (`file_alerts`). */
module Travel {
  import opened Options
  import opened Text

  /** How long a pair of places stays quiet after a report. */
  const PAIR_QUIET_S: int := 86_400

  datatype Spot = Spot(key: string, country: Option<string>, lat: real, lon: real)

  datatype Sighting = Sighting(at: int, until: int, spot: Spot, id: string)

  /** `km` is the distance between two places; only its value matters here. */
  datatype Rules = Rules(speedKmh: real, minKm: real, km: (Spot, Spot) -> real)

  datatype Finding =
    | ImpossibleTravel(at: int, id: string, earlier: Sighting, pair: string, gapS: int, speed: Option<real>)
    | NewCountry(at: int, id: string, country: string, known: nat)

  // ------------------------------------------------------------------ pairs of places

  function PairKey(a: Spot, b: Spot): string {
    if NotAfter(a.key, b.key) then a.key + "|" + b.key else b.key + "|" + a.key
  }

  /** A pair is the same pair whichever place comes first. */
  lemma PairsHaveNoDirection(a: Spot, b: Spot)
    ensures PairKey(a, b) == PairKey(b, a)
    ensures NotAfter(a.key, b.key) ==> PairKey(a, b) == a.key + "|" + b.key
  {
    OrderIsTotal(a.key, b.key);
  }

  /** And otherwise another pair: for names without the bar that joins them, a pair tells its two places. */
  lemma PairsTellTheirPlaces(a: Spot, b: Spot, c: Spot, d: Spot)
    requires '|' !in a.key && '|' !in b.key && '|' !in c.key && '|' !in d.key
    ensures PairKey(a, b) == PairKey(c, d) <==>
              (a.key == c.key && b.key == d.key) || (a.key == d.key && b.key == c.key)
  {
    OrderIsTotal(a.key, b.key);
    OrderIsTotal(c.key, d.key);
    hide NotAfter;
    HalvesOfAPair(a.key, b.key, c.key, d.key);
    HalvesOfAPair(a.key, b.key, d.key, c.key);
    HalvesOfAPair(b.key, a.key, c.key, d.key);
    HalvesOfAPair(b.key, a.key, d.key, c.key);
  }

  lemma HalvesOfAPair(a: string, b: string, c: string, d: string)
    requires '|' !in a && '|' !in c
    ensures a + "|" + b == c + "|" + d ==> a == c && b == d
  {
    var one, other := a + "|" + b, c + "|" + d;
    if one == other {
      assert one[|a|] == '|' && other[|c|] == '|';
      assert forall i :: 0 <= i < |a| ==> one[i] == a[i] && a[i] != '|';
      assert forall i :: 0 <= i < |c| ==> other[i] == c[i] && c[i] != '|';
      assert |a| == |c|;
      assert a == one[..|a|] && c == other[..|c|];
      assert b == one[|a| + 1..] && d == other[|c| + 1..];
    }
  }

  // ------------------------------------------------------------------ one sighting against another

  datatype Suspect = Suspect(earlier: Sighting, gapS: int, speed: Option<real>)

  /** Too far and too soon? `speed` is `None` when the two overlap. */
  function Assess(earlier: Sighting, s: Sighting, rules: Rules): Option<Suspect> {
    var km := rules.km(earlier.spot, s.spot);
    var gap := s.at - earlier.until;
    if earlier.spot.key == s.spot.key || km < rules.minKm then None
    else if gap <= 0 then Some(Suspect(earlier, gap, None))
    else
      var speed := km / (gap as real / 3600.0);
      if speed <= rules.speedKmh then None else Some(Suspect(earlier, gap, Some(speed)))
  }

  /** Over the distance in the time between the end of the one and the beginning of the other. */
  function SpeedBetween(earlier: Sighting, s: Sighting, rules: Rules): real
    requires earlier.until < s.at
  {
    rules.km(earlier.spot, s.spot) / ((s.at - earlier.until) as real / 3600.0)
  }

  /** Two different places, far enough apart, and no time between the two or too little. */
  ghost predicate Impossible(earlier: Sighting, s: Sighting, rules: Rules) {
    && earlier.spot.key != s.spot.key && rules.km(earlier.spot, s.spot) >= rules.minKm
    && (s.at <= earlier.until || SpeedBetween(earlier, s, rules) > rules.speedKmh)
  }

  /** With no time at all where the other has some, or faster. */
  ghost predicate MoreImpossible(a: Sighting, b: Sighting, s: Sighting, rules: Rules) {
    s.at > b.until && (s.at <= a.until || SpeedBetween(a, s, rules) > SpeedBetween(b, s, rules))
  }

  lemma AssessedExactly(earlier: Sighting, s: Sighting, rules: Rules)
    ensures Assess(earlier, s, rules) ==
            if !Impossible(earlier, s, rules) then None
            else Some(Suspect(earlier, s.at - earlier.until,
                              if s.at <= earlier.until then None else Some(SpeedBetween(earlier, s, rules))))
  {
  }

  /** Overlapping beats fast, faster beats fast. */
  predicate Beats(a: Suspect, b: Suspect) {
    b.speed.Some? && (a.speed.None? || a.speed.value > b.speed.value)
  }

  function Worse(a: Option<Suspect>, b: Option<Suspect>): Option<Suspect> {
    if a.None? || (b.Some? && Beats(b.value, a.value)) then b else a
  }

  // ------------------------------------------------------------------ what is found, sighting by sighting

  /** The sighting, of the first `n`, that lasted longest: the latest of those that ended last. */
  function Longest(ss: seq<Sighting>, n: nat): (k: nat)
    requires 0 < n <= |ss|
    ensures k < n
  {
    if n == 1 then 0
    else
      var k := Longest(ss, n - 1);
      if ss[n - 1].until >= ss[k].until then n - 1 else k
  }

  /** The worst of the sighting before `n` and the longest one before it. */
  function Worst(ss: seq<Sighting>, n: nat, rules: Rules): Option<Suspect>
    requires n < |ss|
  {
    if n == 0 then None
    else Worse(Assess(ss[n - 1], ss[n], rules), Assess(ss[Longest(ss, n)], ss[n], rules))
  }

  /** When this pair of places was last reported, in the first `n` sightings. */
  function LastReport(ss: seq<Sighting>, n: nat, rules: Rules, muted: set<string>, pair: string): Option<int>
    requires n <= |ss|
    decreases n, 0
  {
    if n == 0 then None
    else
      if Reports(TravelAt(ss, n - 1, rules, muted), pair) then Some(ss[n - 1].at)
      else LastReport(ss, n - 1, rules, muted, pair)
  }

  predicate Reports(f: Option<Finding>, pair: string) {
    f.Some? && f.value.ImpossibleTravel? && f.value.pair == pair
  }

  function TravelAt(ss: seq<Sighting>, n: nat, rules: Rules, muted: set<string>): (f: Option<Finding>)
    requires n < |ss|
    ensures f.Some? ==> f.value.ImpossibleTravel? && f.value.at == ss[n].at
    decreases n, 1
  {
    match Worst(ss, n, rules)
    case None => None
    case Some(w) =>
      var pair := PairKey(w.earlier.spot, ss[n].spot);
      var last := LastReport(ss, n, rules, muted, pair);
      if pair in muted || (last.Some? && ss[n].at - last.value < PAIR_QUIET_S) then None
      else Some(ImpossibleTravel(ss[n].at, ss[n].id, w.earlier, pair, w.gapS, w.speed))
  }

  function Countries(ss: seq<Sighting>, n: nat): set<string>
    requires n <= |ss|
  {
    if n == 0 then {}
    else Countries(ss, n - 1) + if ss[n - 1].spot.country.Some? then {ss[n - 1].spot.country.value} else {}
  }

  function CountryAt(ss: seq<Sighting>, n: nat): Option<Finding>
    requires n < |ss|
  {
    var known := Countries(ss, n);
    if ss[n].spot.country.Some? && ss[n].spot.country.value !in known && known != {}
    then Some(NewCountry(ss[n].at, ss[n].id, ss[n].spot.country.value, |known|))
    else None
  }

  function Listed(f: Option<Finding>): seq<Finding> {
    if f.Some? then [f.value] else []
  }

  /** Everything found in the first `n` sightings, in the order it is found. */
  function Findings(ss: seq<Sighting>, n: nat, rules: Rules, muted: set<string>): seq<Finding>
    requires n <= |ss|
  {
    if n == 0 then []
    else Findings(ss, n - 1, rules, muted) + Listed(TravelAt(ss, n - 1, rules, muted)) + Listed(CountryAt(ss, n - 1))
  }

  // ------------------------------------------------------------------ what a finding means

  /** `longest` always has the greatest end seen so far, and is the latest such sighting. */
  lemma {:induction false} LongestIsGreatest(ss: seq<Sighting>, n: nat)
    requires 0 < n <= |ss|
    ensures forall k :: 0 <= k < n ==> ss[k].until <= ss[Longest(ss, n)].until
    ensures forall k :: Longest(ss, n) < k < n ==> ss[k].until < ss[Longest(ss, n)].until
  {
    if n > 1 {
      LongestIsGreatest(ss, n - 1);
    }
  }

  /** Sound: whatever is reported is about two different places at least `min_km` apart, and there was
      no time between the two sightings, or too little for the distance. */
  lemma ReportedMeansImpossible(ss: seq<Sighting>, n: nat, rules: Rules, muted: set<string>) returns (k: nat)
    requires n < |ss| && TravelAt(ss, n, rules, muted).Some?
    ensures var f := TravelAt(ss, n, rules, muted).value;
            && k < n && f.earlier == ss[k] && f.id == ss[n].id
            && f.pair == PairKey(ss[k].spot, ss[n].spot) && f.pair !in muted
            && ss[k].spot.key != ss[n].spot.key
            && var km := rules.km(ss[k].spot, ss[n].spot); var gap := ss[n].at - ss[k].until;
               km >= rules.minKm && (gap <= 0 || km / (gap as real / 3600.0) > rules.speedKmh)
  {
    var w := Worst(ss, n, rules).value;
    k := if Assess(ss[n - 1], ss[n], rules) == Some(w) then n - 1 else Longest(ss, n);
  }

  /** A country is found exactly when it is known where this sighting was, no earlier one was there, and it is
      known where some earlier one was; the finding counts the countries known before. */
  lemma NewCountriesExactly(ss: seq<Sighting>, n: nat)
    requires n < |ss|
    ensures var country := ss[n].spot.country;
            var known := set k | 0 <= k < n && ss[k].spot.country.Some? :: ss[k].spot.country.value;
            CountryAt(ss, n) ==
            if country.Some? && known != {} && forall k :: 0 <= k < n ==> ss[k].spot.country != country
            then Some(NewCountry(ss[n].at, ss[n].id, country.value, |known|)) else None
  {
    CountriesAreThose(ss, n);
    hide Countries;
  }

  lemma {:induction false} CountriesAreThose(ss: seq<Sighting>, n: nat)
    requires n <= |ss|
    ensures Countries(ss, n) == set k | 0 <= k < n && ss[k].spot.country.Some? :: ss[k].spot.country.value
  {
    if n > 0 {
      CountriesAreThose(ss, n - 1);
    }
  }

  // ------------------------------------------------------------------ a day apart

  /** Where a finding in the list was made. */
  lemma {:induction false} FoundAt(ss: seq<Sighting>, n: nat, rules: Rules, muted: set<string>, i: nat) returns (k: nat)
    requires n <= |ss| && i < |Findings(ss, n, rules, muted)|
    ensures k < n && |Findings(ss, k, rules, muted)| <= i < |Findings(ss, k + 1, rules, muted)|
    ensures Findings(ss, n, rules, muted)[i].ImpossibleTravel? ==>
              Some(Findings(ss, n, rules, muted)[i]) == TravelAt(ss, k, rules, muted)
    ensures Findings(ss, n, rules, muted)[i].NewCountry? ==> Some(Findings(ss, n, rules, muted)[i]) == CountryAt(ss, k)
    decreases n
  {
    hide TravelAt, CountryAt, Findings;
    if n == 0 {
      Nothing(ss, rules, muted);
    } else {
      FindingsOneMore(ss, n - 1, rules, muted);
    }
    if i < |Findings(ss, n - 1, rules, muted)| {
      k := FoundAt(ss, n - 1, rules, muted, i);
    } else {
      k := n - 1;
      FindingKinds(ss, n - 1, rules, muted);
    }
  }

  lemma FindingKinds(ss: seq<Sighting>, n: nat, rules: Rules, muted: set<string>)
    requires n < |ss|
    ensures TravelAt(ss, n, rules, muted).Some? ==> TravelAt(ss, n, rules, muted).value.ImpossibleTravel?
    ensures CountryAt(ss, n).Some? ==> CountryAt(ss, n).value.NewCountry?
  {
  }

  /** Every report of a pair is no later than the last one. */
  lemma {:induction false} LastIsLast(ss: seq<Sighting>, n: nat, rules: Rules, muted: set<string>, k: nat)
    requires k < n <= |ss| && TravelAt(ss, k, rules, muted).Some?
    ensures var pair := TravelAt(ss, k, rules, muted).value.pair;
            LastReport(ss, n, rules, muted, pair).Some? && ss[k].at <= LastReport(ss, n, rules, muted, pair).value
    decreases n
  {
    hide Worst;
    if k < n - 1 {
      LastIsLast(ss, n - 1, rules, muted, k);
    }
  }

  /** Reports of one pair of places are at least a day apart. */
  lemma ReportsAreADayApart(ss: seq<Sighting>, rules: Rules, muted: set<string>, i: nat, j: nat)
    requires i < j < |Findings(ss, |ss|, rules, muted)|
    requires var fs := Findings(ss, |ss|, rules, muted);
             fs[i].ImpossibleTravel? && fs[j].ImpossibleTravel? && fs[i].pair == fs[j].pair
    ensures var fs := Findings(ss, |ss|, rules, muted); fs[j].at - fs[i].at >= 86_400
  {
    hide Findings, Worst, LastReport;
    var a := FoundAt(ss, |ss|, rules, muted, i);
    var b := FoundAt(ss, |ss|, rules, muted, j);
    FindingsGrowBy(ss, a + 1, |ss|, rules, muted);
    if a == b {
      OneTravelEach(ss, a, rules, muted, i, j);
    } else {
      FindingsGrow(ss, rules, muted, a, b, i, j);
      LastIsLast(ss, b, rules, muted, a);
    }
  }

  // ------------------------------------------------------------------ what is reported

  /** A travel finding of this pair, less than a day old, is in the list. */
  ghost predicate QuietBy(fs: seq<Finding>, pair: string, at: int) {
    exists i :: 0 <= i < |fs| && Recently(fs[i], pair, at)
  }

  ghost predicate Recently(f: Finding, pair: string, at: int) {
    f.ImpossibleTravel? && f.pair == pair && at - f.at < 86_400
  }

  lemma {:induction false} LastReportIsListed(ss: seq<Sighting>, n: nat, rules: Rules, muted: set<string>, pair: string)
      returns (i: nat)
    requires n <= |ss| && LastReport(ss, n, rules, muted, pair).Some?
    ensures i < |Findings(ss, n, rules, muted)|
    ensures var f := Findings(ss, n, rules, muted)[i];
            f.ImpossibleTravel? && f.pair == pair && f.at == LastReport(ss, n, rules, muted, pair).value
  {
    if Reports(TravelAt(ss, n - 1, rules, muted), pair) {
      i := |Findings(ss, n - 1, rules, muted)|;
      TravelIsOfItsTime(ss, n - 1, rules, muted);
    } else {
      i := LastReportIsListed(ss, n - 1, rules, muted, pair);
    }
  }

  lemma TravelIsOfItsTime(ss: seq<Sighting>, n: nat, rules: Rules, muted: set<string>)
    requires n < |ss| && TravelAt(ss, n, rules, muted).Some?
    ensures TravelAt(ss, n, rules, muted).value.at == ss[n].at
  {
  }

  /** What the code remembers of the last report is what the list of findings says. */
  lemma QuietIsInTheList(ss: seq<Sighting>, n: nat, rules: Rules, muted: set<string>, pair: string, at: int)
    requires n <= |ss|
    ensures var last := LastReport(ss, n, rules, muted, pair);
            (last.Some? && at - last.value < PAIR_QUIET_S) <==> QuietBy(Findings(ss, n, rules, muted), pair, at)
  {
    var fs, last := Findings(ss, n, rules, muted), LastReport(ss, n, rules, muted, pair);
    hide Worst, Findings, LastReport;
    if last.Some? && at - last.value < PAIR_QUIET_S {
      var i := LastReportIsListed(ss, n, rules, muted, pair);
      assert Recently(fs[i], pair, at);
    }
    if QuietBy(fs, pair, at) {
      var i :| 0 <= i < |fs| && Recently(fs[i], pair, at);
      var k := FoundAt(ss, n, rules, muted, i);
      LastIsLast(ss, n, rules, muted, k);
      TravelIsOfItsTime(ss, k, rules, muted);
    }
  }

  /** Complete, for the two sightings the code compares with, the one before and the longest: when neither is
      impossible no travel is added. When one is, or both, the more impossible of them is added to the
      findings, the one before when neither is more so, unless its pair is muted or a travel finding of that
      pair less than a day old is already among them. */
  lemma ImpossibleIsReported(ss: seq<Sighting>, n: nat, rules: Rules, muted: set<string>) returns (k: nat)
    requires 0 < n < |ss|
    ensures k == n - 1 || k == Longest(ss, n)
    ensures var s, prev, longest := ss[n], ss[n - 1], ss[Longest(ss, n)];
            var before, after := Findings(ss, n, rules, muted), Findings(ss, n + 1, rules, muted);
            var pair := PairKey(ss[k].spot, s.spot);
            && (Impossible(prev, s, rules) || Impossible(longest, s, rules) ==> Impossible(ss[k], s, rules))
            && (Impossible(prev, s, rules) && Impossible(longest, s, rules) ==>
                  ss[k] == if MoreImpossible(longest, prev, s, rules) then longest else prev)
            && after == before
                      + (if !Impossible(ss[k], s, rules) || pair in muted || QuietBy(before, pair, s.at) then []
                         else [ImpossibleTravel(s.at, s.id, ss[k], pair, s.at - ss[k].until,
                                                if s.at <= ss[k].until then None
                                                else Some(SpeedBetween(ss[k], s, rules)))])
                      + Listed(CountryAt(ss, n))
  {
    hide Findings, LastReport, TravelAt, QuietBy, CountryAt, Listed, Assess, Impossible, MoreImpossible;
    k := WorstIsOneOfTwo(ss, n, rules);
    AssessedExactly(ss[k], ss[n], rules);
    FindingsOneMore(ss, n, rules, muted);
    TravelFollowsTheList(ss, n, k, rules, muted);
    hide Worst, PairKey, Longest, SpeedBetween;
  }

  lemma WorstIsOneOfTwo(ss: seq<Sighting>, n: nat, rules: Rules) returns (k: nat)
    requires 0 < n < |ss|
    ensures (k == n - 1 || k == Longest(ss, n)) && Assess(ss[k], ss[n], rules) == Worst(ss, n, rules)
    ensures var s, prev, longest := ss[n], ss[n - 1], ss[Longest(ss, n)];
            && (Impossible(prev, s, rules) || Impossible(longest, s, rules) ==> Impossible(ss[k], s, rules))
            && (Impossible(prev, s, rules) && Impossible(longest, s, rules) ==>
                  ss[k] == if MoreImpossible(longest, prev, s, rules) then longest else prev)
  {
    hide Assess, Longest, Impossible, SpeedBetween;
    var s, prev, longest := ss[n], ss[n - 1], ss[Longest(ss, n)];
    AssessedExactly(prev, s, rules);
    AssessedExactly(longest, s, rules);
    var worse := Worse(Assess(prev, s, rules), Assess(longest, s, rules));
    k := if worse == Assess(prev, s, rules) then n - 1 else Longest(ss, n);
  }

  lemma TravelFollowsTheList(ss: seq<Sighting>, n: nat, k: nat, rules: Rules, muted: set<string>)
    requires k < n < |ss| && Assess(ss[k], ss[n], rules) == Worst(ss, n, rules)
    ensures var worst, pair := Worst(ss, n, rules), PairKey(ss[k].spot, ss[n].spot);
            Listed(TravelAt(ss, n, rules, muted)) ==
            if worst.None? || pair in muted || QuietBy(Findings(ss, n, rules, muted), pair, ss[n].at) then []
            else [ImpossibleTravel(ss[n].at, ss[n].id, ss[k], pair, ss[n].at - ss[k].until, worst.value.speed)]
  {
    hide Worst, Assess, Findings, LastReport, QuietBy, PairKey, Countries;
    if Assess(ss[k], ss[n], rules).Some? {
      AssessedAgainst(ss[k], ss[n], rules);
    }
    QuietIsInTheList(ss, n, rules, muted, PairKey(ss[k].spot, ss[n].spot), ss[n].at);
  }

  lemma AssessedAgainst(earlier: Sighting, s: Sighting, rules: Rules)
    requires Assess(earlier, s, rules).Some?
    ensures Assess(earlier, s, rules).value.earlier == earlier
    ensures Assess(earlier, s, rules).value.gapS == s.at - earlier.until
  {
  }

  lemma {:induction false} FindingsGrowBy(ss: seq<Sighting>, n: nat, m: nat, rules: Rules, muted: set<string>)
    requires n <= m <= |ss|
    ensures Findings(ss, n, rules, muted) <= Findings(ss, m, rules, muted)
    decreases m
  {
    hide TravelAt, CountryAt;
    if n < m {
      FindingsGrowBy(ss, n, m - 1, rules, muted);
    }
  }

  lemma FindingsGrow(ss: seq<Sighting>, rules: Rules, muted: set<string>, a: nat, b: nat, i: nat, j: nat)
    requires a < |ss| && b < |ss| && a != b && i < j
    requires |Findings(ss, a, rules, muted)| <= i < |Findings(ss, a + 1, rules, muted)|
    requires |Findings(ss, b, rules, muted)| <= j < |Findings(ss, b + 1, rules, muted)|
    ensures a < b
  {
    hide Findings;
    if b < a {
      FindingsGrowBy(ss, b + 1, a, rules, muted);
    }
  }

  lemma OneTravelEach(ss: seq<Sighting>, k: nat, rules: Rules, muted: set<string>, i: nat, j: nat)
    requires k < |ss|
    requires |Findings(ss, k, rules, muted)| <= i < j < |Findings(ss, k + 1, rules, muted)|
    requires |Findings(ss, k + 1, rules, muted)| <= |Findings(ss, |ss|, rules, muted)|
    requires Findings(ss, k + 1, rules, muted) <= Findings(ss, |ss|, rules, muted)
    ensures Findings(ss, |ss|, rules, muted)[j].NewCountry?
  {
    hide TravelAt;
    FindingKinds(ss, k, rules, muted);
  }

  // ------------------------------------------------------------------ later sightings change nothing

  lemma {:induction false} LongestIgnoresTheFuture(ss: seq<Sighting>, more: seq<Sighting>, n: nat)
    requires 0 < n <= |ss|
    ensures Longest(ss + more, n) == Longest(ss, n)
  {
    if n > 1 {
      LongestIgnoresTheFuture(ss, more, n - 1);
    }
  }

  lemma WorstIgnoresTheFuture(ss: seq<Sighting>, more: seq<Sighting>, n: nat, rules: Rules)
    requires n < |ss|
    ensures Worst(ss + more, n, rules) == Worst(ss, n, rules)
  {
    if n > 0 {
      LongestIgnoresTheFuture(ss, more, n);
    }
  }

  lemma {:induction false} LastIgnoresTheFuture(ss: seq<Sighting>, more: seq<Sighting>, n: nat, rules: Rules,
      muted: set<string>, pair: string)
    requires n <= |ss|
    ensures LastReport(ss + more, n, rules, muted, pair) == LastReport(ss, n, rules, muted, pair)
    decreases n, 0
  {
    hide Worst;
    if n > 0 {
      TravelIgnoresTheFuture(ss, more, n - 1, rules, muted);
      LastIgnoresTheFuture(ss, more, n - 1, rules, muted, pair);
    }
  }

  lemma {:induction false} TravelIgnoresTheFuture(ss: seq<Sighting>, more: seq<Sighting>, n: nat, rules: Rules,
      muted: set<string>)
    requires n < |ss|
    ensures TravelAt(ss + more, n, rules, muted) == TravelAt(ss, n, rules, muted)
    decreases n, 1
  {
    WorstIgnoresTheFuture(ss, more, n, rules);
    hide Worst, LastReport;
    if Worst(ss, n, rules).Some? {
      LastIgnoresTheFuture(ss, more, n, rules, muted, PairKey(Worst(ss, n, rules).value.earlier.spot, ss[n].spot));
    }
  }

  lemma {:induction false} CountriesIgnoreTheFuture(ss: seq<Sighting>, more: seq<Sighting>, n: nat)
    requires n <= |ss|
    ensures Countries(ss + more, n) == Countries(ss, n)
  {
    if n > 0 {
      CountriesIgnoreTheFuture(ss, more, n - 1);
    }
  }

  lemma CountryIgnoresTheFuture(ss: seq<Sighting>, more: seq<Sighting>, n: nat)
    requires n < |ss|
    ensures CountryAt(ss + more, n) == CountryAt(ss, n)
  {
    CountriesIgnoreTheFuture(ss, more, n);
  }

  lemma FindingsOneMore(ss: seq<Sighting>, n: nat, rules: Rules, muted: set<string>)
    requires n < |ss|
    ensures Findings(ss, n + 1, rules, muted) ==
            Findings(ss, n, rules, muted) + Listed(TravelAt(ss, n, rules, muted)) + Listed(CountryAt(ss, n))
  {
    hide TravelAt, CountryAt;
  }

  lemma {:induction false} FindingsIgnoreTheFuture(ss: seq<Sighting>, more: seq<Sighting>, n: nat, rules: Rules,
      muted: set<string>)
    requires n <= |ss|
    ensures Findings(ss + more, n, rules, muted) == Findings(ss, n, rules, muted)
  {
    hide *;
    if n == 0 {
      Nothing(ss, rules, muted);
      Nothing(ss + more, rules, muted);
    } else {
      FindingsIgnoreTheFuture(ss, more, n - 1, rules, muted);
      TravelIgnoresTheFuture(ss, more, n - 1, rules, muted);
      CountryIgnoresTheFuture(ss, more, n - 1);
      FindingsOneMore(ss, n - 1, rules, muted);
      FindingsOneMore(ss + more, n - 1, rules, muted);
    }
  }

  function All(ss: seq<Sighting>, rules: Rules, muted: set<string>): seq<Finding> {
    Findings(ss, |ss|, rules, muted)
  }

  /** What was found stays found: the findings for a history are the first of the findings for any
      history that goes on from it. */
  lemma FindingsAreStable(ss: seq<Sighting>, more: seq<Sighting>, rules: Rules, muted: set<string>)
    ensures All(ss, rules, muted) <= All(ss + more, rules, muted)
  {
    hide Findings;
    FindingsIgnoreTheFuture(ss, more, |ss|, rules, muted);
    FindingsGrowBy(ss + more, |ss|, |ss + more|, rules, muted);
  }

  // ------------------------------------------------------------------ a play still going on

  /** The two histories are the same before `k`, and at `k` but for when that sighting ends. */
  ghost predicate SameUpTo(a: seq<Sighting>, b: seq<Sighting>, k: nat) {
    k < |a| && k < |b| && a[..k] == b[..k] && b[k] == a[k].(until := b[k].until)
  }

  lemma SameTravel(a: seq<Sighting>, b: seq<Sighting>, k: nat, rules: Rules, muted: set<string>)
    requires SameUpTo(a, b, k)
    ensures TravelAt(a, k, rules, muted) == TravelAt(b, k, rules, muted)
  {
    hide Findings, Longest;
    assert a == a[..k] + a[k..] && b == b[..k] + b[k..];
    if k > 0 {
      LongestIgnoresTheFuture(a[..k], a[k..], k);
      LongestIgnoresTheFuture(b[..k], b[k..], k);
      assert a[k - 1] == a[..k][k - 1] == b[k - 1];
      assert a[Longest(a, k)] == a[..k][Longest(a, k)] == b[Longest(b, k)];
    }
    assert Worst(a, k, rules) == Worst(b, k, rules);
    hide Worst, LastReport;
    if Worst(a, k, rules).Some? {
      var pair := PairKey(Worst(a, k, rules).value.earlier.spot, a[k].spot);
      LastIgnoresTheFuture(a[..k], a[k..], k, rules, muted, pair);
      LastIgnoresTheFuture(b[..k], b[k..], k, rules, muted, pair);
    }
  }

  lemma SameCountry(a: seq<Sighting>, b: seq<Sighting>, k: nat)
    requires SameUpTo(a, b, k)
    ensures CountryAt(a, k) == CountryAt(b, k)
  {
    hide Countries;
    assert a == a[..k] + a[k..] && b == b[..k] + b[k..];
    CountriesIgnoreTheFuture(a[..k], a[k..], k);
    CountriesIgnoreTheFuture(b[..k], b[k..], k);
  }

  /** What is found up to and including a sighting does not depend on when that one ends, or on anything
      of those after it: a play still going on at one scan, and longer at the next, leaves it as it is. */
  lemma FindingsDoNotWait(a: seq<Sighting>, b: seq<Sighting>, k: nat, rules: Rules, muted: set<string>)
    requires SameUpTo(a, b, k)
    ensures Findings(a, k + 1, rules, muted) == Findings(b, k + 1, rules, muted)
    ensures Findings(a, k + 1, rules, muted) <= All(a, rules, muted)
    ensures Findings(a, k + 1, rules, muted) <= All(b, rules, muted)
  {
    hide Findings, TravelAt, CountryAt;
    assert a == a[..k] + a[k..] && b == b[..k] + b[k..];
    FindingsIgnoreTheFuture(a[..k], a[k..], k, rules, muted);
    FindingsIgnoreTheFuture(b[..k], b[k..], k, rules, muted);
    SameTravel(a, b, k, rules, muted);
    SameCountry(a, b, k);
    FindingsOneMore(a, k, rules, muted);
    FindingsOneMore(b, k, rules, muted);
    FindingsGrowBy(a, k + 1, |a|, rules, muted);
    FindingsGrowBy(b, k + 1, |b|, rules, muted);
  }

  /** What is found at the sightings after it can: with the same second sighting, a first one that ends in
      time leaves nothing to report, and one that goes on for longer is reported. */
  lemma ALaterEndCanTell(first: Sighting, later: Sighting, next: Sighting, rules: Rules)
    requires later == first.(until := later.until) && first.spot.country == next.spot.country
    requires Assess(first, next, rules).None? && Assess(later, next, rules).Some?
    ensures All([first, next], rules, {}) == [] && |All([later, next], rules, {})| == 1
  {
    TwoSightings(first, next, rules);
    TwoSightings(later, next, rules);
    hide All;
  }

  lemma TwoSightings(first: Sighting, next: Sighting, rules: Rules)
    requires first.spot.country == next.spot.country
    ensures |All([first, next], rules, {})| == if Assess(first, next, rules).Some? then 1 else 0
  {
    hide Assess, PairKey;
    var ss := [first, next];
    assert Longest(ss, 1) == 0;
    assert Worst(ss, 0, rules).None?;
    assert TravelAt(ss, 0, rules, {}).None? && Countries(ss, 0) == {};
    assert Countries(ss, 1) == if first.spot.country.Some? then {first.spot.country.value} else {};
    assert Findings(ss, 0, rules, {}) == [];
    assert Findings(ss, 1, rules, {}) == [];
  }

  function ThousandKm(a: Spot, b: Spot): real {
    1000.0
  }

  const FAR_APART: Rules := Rules(900.0, 100.0, ThousandKm)

  const AT_HOME: Sighting := Sighting(0, 0, Spot("home", None, 0.0, 0.0), "play:1")

  const ABROAD: Sighting := Sighting(36_000, 36_000, Spot("abroad", None, 0.0, 0.0), "play:2")

  /** Ten hours for a thousand kilometres are enough; but once the first play has gone on until the second
      begins, there was no time at all. */
  lemma APlayThatWentOn()
    ensures All([AT_HOME, ABROAD], FAR_APART, {}) == []
    ensures |All([AT_HOME.(until := 36_000), ABROAD], FAR_APART, {})| == 1
  {
    ALaterEndCanTell(AT_HOME, AT_HOME.(until := 36_000), ABROAD, FAR_APART);
  }

  // ------------------------------------------------------------------ muting

  predicate About(f: Finding, pair: string) {
    f.ImpossibleTravel? && f.pair == pair
  }

  function Without(fs: seq<Finding>, pair: string): seq<Finding> {
    if fs == [] then []
    else Without(fs[..|fs| - 1], pair) + if About(fs[|fs| - 1], pair) then [] else [fs[|fs| - 1]]
  }

  lemma {:induction false} WithoutJoins(a: seq<Finding>, b: seq<Finding>, pair: string)
    ensures Without(a + b, pair) == Without(a, pair) + Without(b, pair)
  {
    if b == [] {
      assert a + b == a;
    } else {
      assert (a + b)[..|a + b| - 1] == a + b[..|b| - 1];
      WithoutJoins(a, b[..|b| - 1], pair);
    }
  }

  lemma {:induction false} MutingLeavesOthersReports(ss: seq<Sighting>, n: nat, rules: Rules, muted: set<string>,
      pair: string, other: string)
    requires n <= |ss| && other != pair
    ensures LastReport(ss, n, rules, muted + {pair}, other) == LastReport(ss, n, rules, muted, other)
    decreases n, 0
  {
    hide Worst;
    if n > 0 {
      MutingAt(ss, n - 1, rules, muted, pair);
      MutingLeavesOthersReports(ss, n - 1, rules, muted, pair, other);
    }
  }

  lemma {:induction false} MutingAt(ss: seq<Sighting>, n: nat, rules: Rules, muted: set<string>, pair: string)
    requires n < |ss|
    ensures var f := TravelAt(ss, n, rules, muted);
            TravelAt(ss, n, rules, muted + {pair}) == if f.Some? && f.value.pair == pair then None else f
    decreases n, 1
  {
    hide LastReport, Worst;
    var w := Worst(ss, n, rules);
    if w.Some? && PairKey(w.value.earlier.spot, ss[n].spot) != pair {
      MutingLeavesOthersReports(ss, n, rules, muted, pair, PairKey(w.value.earlier.spot, ss[n].spot));
    }
  }

  /** Muting a pair removes exactly that pair's travel findings, and changes no other finding. */
  lemma {:induction false} MutingRemovesThatPairOnly(ss: seq<Sighting>, n: nat, rules: Rules, muted: set<string>,
      pair: string)
    requires n <= |ss|
    ensures Findings(ss, n, rules, muted + {pair}) == Without(Findings(ss, n, rules, muted), pair)
  {
    hide *;
    if n == 0 {
      WithoutNothing(ss, rules, muted, pair);
    } else {
      var before := Findings(ss, n - 1, rules, muted);
      var travel, country := TravelAt(ss, n - 1, rules, muted), CountryAt(ss, n - 1);
      MutingRemovesThatPairOnly(ss, n - 1, rules, muted, pair);
      MutingAt(ss, n - 1, rules, muted, pair);
      FindingKinds(ss, n - 1, rules, muted);
      WithoutJoins(before + Listed(travel), Listed(country), pair);
      WithoutJoins(before, Listed(travel), pair);
      WithoutListed(travel, pair);
      WithoutListed(country, pair);
      FindingsOneMore(ss, n - 1, rules, muted);
      FindingsOneMore(ss, n - 1, rules, muted + {pair});
      AboutKinds(travel, country, pair);
    }
  }

  lemma WithoutNothing(ss: seq<Sighting>, rules: Rules, muted: set<string>, pair: string)
    ensures Findings(ss, 0, rules, muted + {pair}) == Without(Findings(ss, 0, rules, muted), pair)
  {
  }

  lemma AboutKinds(travel: Option<Finding>, country: Option<Finding>, pair: string)
    ensures travel.Some? && travel.value.ImpossibleTravel? ==>
              (About(travel.value, pair) <==> travel.value.pair == pair)
    ensures country.Some? && country.value.NewCountry? ==> !About(country.value, pair)
    ensures Listed(None) == []
  {
  }

  lemma WithoutListed(f: Option<Finding>, pair: string)
    ensures Without(Listed(f), pair) == if f.Some? && About(f.value, pair) then [] else Listed(f)
  {
    if f.Some? {
      assert [f.value][..0] == [];
    }
  }

  // ------------------------------------------------------------------ the scan

  method Scan(ss: seq<Sighting>, rules: Rules, muted: set<string>) returns (out: seq<Finding>)
    ensures out == All(ss, rules, muted)
  {
    hide Worst, LastReport, Findings, Countries, Longest;
    out := [];
    var countries: set<string> := {};
    var lastReport: map<string, int> := map[];
    var prev: Option<Sighting> := None;
    var longest: Option<Sighting> := None;
    Nothing(ss, rules, muted);
    for n := 0 to |ss|
      invariant out == Findings(ss, n, rules, muted)
      invariant countries == Countries(ss, n)
      invariant forall pair ::
                  (if pair in lastReport then Some(lastReport[pair]) else None) == LastReport(ss, n, rules, muted, pair)
      invariant n == 0 ==> prev == None && longest == None
      invariant n > 0 ==> prev == Some(ss[n - 1]) && longest == Some(ss[Longest(ss, n)])
    {
      var s := ss[n];
      var worst: Option<Suspect> := None;
      if prev.Some? {
        worst := Worse(worst, Assess(prev.value, s, rules));
      }
      if longest.Some? {
        worst := Worse(worst, Assess(longest.value, s, rules));
      }
      OneMore(ss, n, rules, muted);
      assert worst == Worst(ss, n, rules);
      ghost var travel, country := TravelAt(ss, n, rules, muted), CountryAt(ss, n);
      if worst.Some? {
        var pair := PairKey(worst.value.earlier.spot, s.spot);
        var quiet := pair in lastReport && s.at - lastReport[pair] < PAIR_QUIET_S;
        if pair !in muted && !quiet {
          lastReport := lastReport[pair := s.at];
          out := out + [ImpossibleTravel(s.at, s.id, worst.value.earlier, pair, worst.value.gapS, worst.value.speed)];
        }
      }
      assert out == Findings(ss, n, rules, muted) + Listed(travel);
      if s.spot.country.Some? && s.spot.country.value !in countries {
        if countries != {} {
          out := out + [NewCountry(s.at, s.id, s.spot.country.value, |countries|)];
        }
        countries := countries + {s.spot.country.value};
      }
      if longest.None? || s.until >= longest.value.until {
        longest := Some(s);
      }
      prev := Some(s);
    }
  }

  lemma Nothing(ss: seq<Sighting>, rules: Rules, muted: set<string>)
    ensures Findings(ss, 0, rules, muted) == [] && Countries(ss, 0) == {}
    ensures forall pair :: LastReport(ss, 0, rules, muted, pair) == None
  {
  }

  lemma LastOneMore(ss: seq<Sighting>, n: nat, rules: Rules, muted: set<string>, pair: string)
    requires n < |ss|
    ensures LastReport(ss, n + 1, rules, muted, pair) ==
            if Reports(TravelAt(ss, n, rules, muted), pair) then Some(ss[n].at)
            else LastReport(ss, n, rules, muted, pair)
  {
    hide Worst;
  }

  lemma OneMore(ss: seq<Sighting>, n: nat, rules: Rules, muted: set<string>)
    requires n < |ss|
    ensures Findings(ss, n + 1, rules, muted) ==
            Findings(ss, n, rules, muted) + Listed(TravelAt(ss, n, rules, muted)) + Listed(CountryAt(ss, n))
    ensures Countries(ss, n + 1) ==
            Countries(ss, n) + if ss[n].spot.country.Some? then {ss[n].spot.country.value} else {}
    ensures forall pair: string ::
              LastReport(ss, n + 1, rules, muted, pair) ==
              if Reports(TravelAt(ss, n, rules, muted), pair) then Some(ss[n].at)
              else LastReport(ss, n, rules, muted, pair)
    ensures Longest(ss, n + 1) == if n == 0 || ss[n].until >= ss[Longest(ss, n)].until then n else Longest(ss, n)
    ensures Worst(ss, n, rules) ==
            if n == 0 then None
            else Worse(Worse(None, Assess(ss[n - 1], ss[n], rules)), Assess(ss[Longest(ss, n)], ss[n], rules))
  {
    hide TravelAt, CountryAt, Assess, LastReport;
    forall pair: string
      ensures LastReport(ss, n + 1, rules, muted, pair) ==
              if Reports(TravelAt(ss, n, rules, muted), pair) then Some(ss[n].at)
              else LastReport(ss, n, rules, muted, pair)
    {
      LastOneMore(ss, n, rules, muted, pair);
    }
  }

  // ------------------------------------------------------------------ filing

  /** What makes a finding the same finding on a rescan. */
  datatype Dedupe = TravelAlert(user: string, id: string) | CountryAlert(user: string, country: string)

  function KeyOf(user: string, f: Finding): Dedupe {
    match f
    case ImpossibleTravel(_, id, _, _, _, _) => TravelAlert(user, id)
    case NewCountry(_, _, country, _) => CountryAlert(user, country)
  }

  /** Two findings are one alert exactly when they are of one account and of one sighting, or of one country. */
  lemma OneAlertExactly(a: string, f: Finding, b: string, g: Finding)
    ensures KeyOf(a, f) == KeyOf(b, g) <==>
              && a == b
              && ((f.ImpossibleTravel? && g.ImpossibleTravel? && f.id == g.id)
                  || (f.NewCountry? && g.NewCountry? && f.country == g.country))
  {
  }

  /** `INSERT OR IGNORE`, one finding after another. */
  function Filed(table: map<Dedupe, Finding>, user: string, fs: seq<Finding>): map<Dedupe, Finding> {
    if fs == [] then table
    else
      var before, last := Filed(table, user, fs[..|fs| - 1]), fs[|fs| - 1];
      if KeyOf(user, last) in before then before else before[KeyOf(user, last) := last]
  }

  function Added(table: map<Dedupe, Finding>, user: string, fs: seq<Finding>): nat {
    if fs == [] then 0
    else
      Added(table, user, fs[..|fs| - 1])
      + if KeyOf(user, fs[|fs| - 1]) in Filed(table, user, fs[..|fs| - 1]) then 0 else 1
  }

  class Alerts {
    var table: map<Dedupe, Finding>

    method File(user: string, fs: seq<Finding>) returns (added: nat)
      modifies this
      ensures table == Filed(old(table), user, fs)
      ensures added == Added(old(table), user, fs)
    {
      added := 0;
      for i := 0 to |fs|
        invariant table == Filed(old(table), user, fs[..i])
        invariant added == Added(old(table), user, fs[..i])
      {
        assert fs[..i + 1][..i] == fs[..i];
        var key := KeyOf(user, fs[i]);
        if key !in table {
          table := table[key := fs[i]];
          added := added + 1;
        }
      }
      assert fs[..|fs|] == fs;
    }
  }

  lemma {:induction false} FiledKeys(table: map<Dedupe, Finding>, user: string, fs: seq<Finding>)
    ensures Filed(table, user, fs).Keys == table.Keys + set i | 0 <= i < |fs| :: KeyOf(user, fs[i])
  {
    if fs != [] {
      var n := |fs| - 1;
      FiledKeys(table, user, fs[..n]);
      assert (set i | 0 <= i < |fs| :: KeyOf(user, fs[i]))
          == (set i | 0 <= i < n :: KeyOf(user, fs[..n][i])) + {KeyOf(user, fs[n])};
    }
  }

  /** What was on file stays, and what is counted is what is added. */
  lemma {:induction false} OnFileStays(table: map<Dedupe, Finding>, user: string, fs: seq<Finding>)
    ensures forall key :: key in table ==> key in Filed(table, user, fs) && Filed(table, user, fs)[key] == table[key]
    ensures Added(table, user, fs) == |Filed(table, user, fs)| - |table|
  {
    hide KeyOf;
    if fs != [] {
      OnFileStays(table, user, fs[..|fs| - 1]);
    }
  }

  /** And a finding is filed as it is when nothing on file and none filed before it is the same alert. */
  lemma {:induction false} FirstOfEachIsFiled(table: map<Dedupe, Finding>, user: string, fs: seq<Finding>, i: nat)
    requires i < |fs| && KeyOf(user, fs[i]) !in table
    requires forall j :: 0 <= j < i ==> KeyOf(user, fs[j]) != KeyOf(user, fs[i])
    ensures KeyOf(user, fs[i]) in Filed(table, user, fs) && Filed(table, user, fs)[KeyOf(user, fs[i])] == fs[i]
  {
    hide KeyOf;
    var n := |fs| - 1;
    if i < n {
      FirstOfEachIsFiled(table, user, fs[..n], i);
    } else {
      FiledKeys(table, user, fs[..n]);
      assert forall j :: 0 <= j < n ==> fs[..n][j] == fs[j];
    }
  }

  lemma {:induction false} FiledJoins(table: map<Dedupe, Finding>, user: string, a: seq<Finding>, b: seq<Finding>)
    ensures Filed(table, user, a + b) == Filed(Filed(table, user, a), user, b)
    ensures Added(table, user, a + b) == Added(table, user, a) + Added(Filed(table, user, a), user, b)
  {
    if b == [] {
      assert a + b == a;
    } else {
      assert (a + b)[..|a + b| - 1] == a + b[..|b| - 1];
      FiledJoins(table, user, a, b[..|b| - 1]);
    }
  }

  lemma {:induction false} NothingNew(table: map<Dedupe, Finding>, user: string, fs: seq<Finding>)
    requires forall i :: 0 <= i < |fs| ==> KeyOf(user, fs[i]) in table
    ensures Filed(table, user, fs) == table && Added(table, user, fs) == 0
  {
    if fs != [] {
      NothingNew(table, user, fs[..|fs| - 1]);
    }
  }

  /** Filing what was found for a history, and then what is found for the history as it went on, adds
      only what the new sightings brought, and leaves the table as one filing of everything would. */
  lemma RefilingAddsOnlyTheNew(table: map<Dedupe, Finding>, user: string, ss: seq<Sighting>, more: seq<Sighting>,
      rules: Rules, muted: set<string>)
    ensures var first, all := All(ss, rules, muted), All(ss + more, rules, muted);
            var once := Filed(table, user, first);
            && first <= all
            && Filed(once, user, all) == Filed(table, user, all)
            && Added(once, user, all) == Added(once, user, all[|first|..])
  {
    hide All;
    var first, all := All(ss, rules, muted), All(ss + more, rules, muted);
    FindingsAreStable(ss, more, rules, muted);
    var rest, once := all[|first|..], Filed(table, user, first);
    assert all == first + rest;
    FiledJoins(table, user, first, rest);
    FiledJoins(once, user, first, rest);
    FiledKeys(table, user, first);
    NothingNew(once, user, first);
  }
}
