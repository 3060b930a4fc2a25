/** The driver registry: ranking, resolution, preferences and match reports. */
module DriverRegistryModel {
  import opened Core
  import opened StringOrder
  import opened Sorting
  import opened Inventory

  datatype Level = Unsupported | Fallback | Generic | Preferred | Exact {
    function Rank(): nat {
      match this
      case Unsupported => 0
      case Fallback => 1
      case Generic => 2
      case Preferred => 3
      case Exact => 4
    }
  }

  datatype DriverMatch = DriverMatch(level: Level, score: U32, matchedRule: Option<nat>) {
    predicate IsSupported() { !level.Unsupported? }

    /** Strictly higher by `compare_rank`: score first, then level. */
    predicate Above(other: DriverMatch) {
      score > other.score || (score == other.score && level.Rank() > other.level.Rank())
    }

    predicate SameRank(other: DriverMatch) { score == other.score && level == other.level }
  }

  type DriverId = string

  /** A driver, with the fault that validating its manifest would report, if any. */
  datatype Driver = Driver(id: DriverId, manifestFault: Option<string>, matches: Descriptor -> DriverMatch)

  /** A driver together with its verdict on one device. */
  datatype Candidate = Candidate(driver: Driver, matched: DriverMatch)

  datatype RegistryError =
    | DuplicateDriverId(driverId: DriverId)
    | InvalidManifest(driverId: DriverId, source: string)
    | UnknownPreferredDriver(driverId: DriverId)
    | NoMatchingDriver(deviceId: DeviceId)
    | PreferredDriverDidNotMatch(deviceId: DeviceId, driverId: DriverId)
    | ConflictingMatches(deviceId: DeviceId, driverIds: seq<DriverId>)

  // ---------- ranking ----------

  function Judge(device: Descriptor): Driver -> Candidate {
    (driver: Driver) => Candidate(driver, driver.matches(device))
  }

  /** The comparison of `ranked_candidates`: supported first, then higher rank, then smaller id. */
  predicate RanksFirst(left: Candidate, right: Candidate) {
    if left.matched.IsSupported() != right.matched.IsSupported() then left.matched.IsSupported()
    else if left.matched.Above(right.matched) then true
    else if right.matched.Above(left.matched) then false
    else !Less(right.driver.id, left.driver.id)
  }

  lemma RanksFirstIsOrder()
    ensures IsTotalPreorder(RanksFirst)
  {
    forall x, y ensures RanksFirst(x, y) || RanksFirst(y, x) {
      Asymmetric(x.driver.id, y.driver.id);
    }
    forall x, y, z | RanksFirst(x, y) && RanksFirst(y, z) ensures RanksFirst(x, z) {
      var a, b, c := x.driver.id, y.driver.id, z.driver.id;
      if Less(c, a) {
        LessTotal(a, b);
        LessTotal(b, c);
        if Less(a, b) { Transitive(c, a, b); }
        if Less(b, c) { Transitive(b, c, a); }
        Asymmetric(a, b);
        Asymmetric(b, c);
        Asymmetric(c, a);
      }
    }
  }

  function Ranked(drivers: seq<Driver>, device: Descriptor): seq<Candidate> {
    Sort(RanksFirst, Map(Judge(device), drivers))
  }

  ghost predicate DistinctDriverIds(drivers: seq<Driver>) {
    forall i, j :: 0 <= i < j < |drivers| ==> drivers[i].id != drivers[j].id
  }

  lemma JudgedHaveNoTies(drivers: seq<Driver>, device: Descriptor)
    requires DistinctDriverIds(drivers)
    ensures NoTies(RanksFirst, Map(Judge(device), drivers))
  {
    var judged := Map(Judge(device), drivers);
    forall i, j |
      0 <= i < |judged| && 0 <= j < |judged|
      && RanksFirst(judged[i], judged[j]) && RanksFirst(judged[j], judged[i])
      ensures judged[i] == judged[j]
    {
      LessTotal(drivers[i].id, drivers[j].id);
      assert drivers[i].id == drivers[j].id;
    }
  }

  /** The ranked list does not depend on the order of registration. */
  lemma RankingForgetsRegistrationOrder(drivers: seq<Driver>, reordered: seq<Driver>, device: Descriptor)
    requires DistinctDriverIds(drivers) && multiset(drivers) == multiset(reordered)
    ensures Ranked(drivers, device) == Ranked(reordered, device)
  {
    RanksFirstIsOrder();
    JudgedHaveNoTies(drivers, device);
    MapPermutation(Judge(device), drivers, reordered);
    SortForgetsOrder(RanksFirst, Map(Judge(device), drivers), Map(Judge(device), reordered));
  }

  function Supported(ranked: seq<Candidate>): seq<Candidate> {
    if ranked == [] then []
    else (if ranked[0].matched.IsSupported() then [ranked[0]] else []) + Supported(ranked[1..])
  }

  function Rejected(ranked: seq<Candidate>): seq<Candidate> {
    if ranked == [] then []
    else (if ranked[0].matched.IsSupported() then [] else [ranked[0]]) + Rejected(ranked[1..])
  }

  function TakeSameRank(ranked: seq<Candidate>, best: Candidate): seq<Candidate> {
    if ranked == [] || !ranked[0].matched.SameRank(best.matched) then []
    else [ranked[0]] + TakeSameRank(ranked[1..], best)
  }

  function DriverIds(candidates: seq<Candidate>): (ids: seq<DriverId>)
    ensures |ids| == |candidates|
    ensures forall i :: 0 <= i < |ids| ==> ids[i] == candidates[i].driver.id
  {
    seq(|candidates|, i requires 0 <= i < |candidates| => candidates[i].driver.id)
  }

  function WithId(candidates: seq<Candidate>, id: DriverId): (r: Option<Candidate>)
    ensures r.Some? ==> r.value in candidates && r.value.driver.id == id
    ensures r.None? ==> forall c :: c in candidates ==> c.driver.id != id
  {
    if candidates == [] then None
    else if candidates[0].driver.id == id then Some(candidates[0])
    else
      assert forall c :: c in candidates ==> c == candidates[0] || c in candidates[1..];
      WithId(candidates[1..], id)
  }

  function BestMatch(drivers: seq<Driver>, device: Descriptor): Option<Candidate> {
    FirstSupported(Ranked(drivers, device))
  }

  function FirstSupported(ranked: seq<Candidate>): Option<Candidate> {
    if ranked == [] then None
    else if ranked[0].matched.IsSupported() then Some(ranked[0])
    else FirstSupported(ranked[1..])
  }

  function Resolve(drivers: seq<Driver>, preferred: Option<DriverId>, device: Descriptor)
    : Result<Candidate, RegistryError>
  {
    var candidates := Supported(Ranked(drivers, device));
    match preferred
    case Some(id) =>
      (match WithId(candidates, id)
       case Some(candidate) => Ok(candidate)
       case None => Err(PreferredDriverDidNotMatch(device.id, id)))
    case None =>
      if candidates == [] then Err(NoMatchingDriver(device.id)) else
        var best := candidates[0];
        var conflicts := DriverIds(TakeSameRank(candidates[1..], best));
        if conflicts == [] then Ok(best)
        else Err(ConflictingMatches(device.id, [best.driver.id] + conflicts))
  }

  // ---------- what resolution means ----------

  predicate Supports(driver: Driver, device: Descriptor) { driver.matches(device).IsSupported() }

  /** A supporting driver that no supporting driver outranks. */
  ghost predicate IsTop(drivers: seq<Driver>, device: Descriptor, driver: Driver) {
    && driver in drivers && Supports(driver, device)
    && forall other :: other in drivers && Supports(other, device) ==>
         !other.matches(device).Above(driver.matches(device))
  }

  /** The candidates that share the highest rank, in id order. */
  function TopGroup(drivers: seq<Driver>, device: Descriptor): seq<Candidate> {
    var candidates := Supported(Ranked(drivers, device));
    if candidates == [] then [] else TakeSameRank(candidates, candidates[0])
  }

  lemma {:induction false} SupportedMembers(ranked: seq<Candidate>)
    ensures forall c :: c in Supported(ranked) <==> c in ranked && c.matched.IsSupported()
  {
    if ranked != [] { SupportedMembers(ranked[1..]); }
  }

  lemma {:induction false} SupportedSorted(ranked: seq<Candidate>)
    requires Sorted(RanksFirst, ranked)
    ensures Sorted(RanksFirst, Supported(ranked))
  {
    if ranked != [] {
      SupportedSorted(ranked[1..]);
      SupportedMembers(ranked[1..]);
      var rest := Supported(ranked[1..]);
      forall k | 0 <= k < |rest| ensures RanksFirst(ranked[0], rest[k]) {
        assert rest[k] in rest;
      }
    }
  }

  lemma RankedMembers(drivers: seq<Driver>, device: Descriptor)
    ensures Sorted(RanksFirst, Ranked(drivers, device))
    ensures forall c :: c in Ranked(drivers, device) <==> c.driver in drivers && c == Judge(device)(c.driver)
  {
    RanksFirstIsOrder();
    var judged := Map(Judge(device), drivers);
    SortSorted(RanksFirst, judged);
    forall c ensures c in Ranked(drivers, device) <==> c.driver in drivers && c == Judge(device)(c.driver) {
      assert c in Ranked(drivers, device) <==> c in multiset(judged);
      if c.driver in drivers && c == Judge(device)(c.driver) {
        var i :| 0 <= i < |drivers| && drivers[i] == c.driver;
        assert judged[i] == c;
      }
    }
  }

  /** In a sorted list of supported candidates, those ranking with the first one come first. */
  lemma {:induction false} SameRankIsPrefix(candidates: seq<Candidate>, best: Candidate)
    requires Sorted(RanksFirst, candidates)
    requires best.matched.IsSupported()
    requires forall c :: c in candidates ==> c.matched.IsSupported() && !c.matched.Above(best.matched)
    ensures forall c :: c in TakeSameRank(candidates, best) <==> c in candidates && c.matched.SameRank(best.matched)
    ensures TakeSameRank(candidates, best) <= candidates
  {
    if candidates != [] {
      if candidates[0].matched.SameRank(best.matched) {
        SameRankIsPrefix(candidates[1..], best);
      } else {
        forall c | c in candidates ensures !c.matched.SameRank(best.matched) {
          var k :| 0 <= k < |candidates| && candidates[k] == c;
          assert k > 0 ==> RanksFirst(candidates[0], candidates[k]);
        }
      }
    }
  }

  lemma {:induction false} SupportedKeepsNoRepeats(ranked: seq<Candidate>)
    requires NoRepeats(ranked)
    ensures NoRepeats(Supported(ranked))
  {
    if ranked != [] {
      SupportedKeepsNoRepeats(ranked[1..]);
      SupportedMembers(ranked[1..]);
      var rest := Supported(ranked[1..]);
      forall k | 0 <= k < |rest| ensures rest[k] != ranked[0] {
        assert rest[k] in rest;
      }
    }
  }

  /** The supporting candidates: sorted, without repeats, and one for each supporting driver. */
  lemma CandidatesMeaning(drivers: seq<Driver>, device: Descriptor)
    requires DistinctDriverIds(drivers)
    ensures var candidates := Supported(Ranked(drivers, device));
      && Sorted(RanksFirst, candidates) && NoRepeats(candidates)
      && forall c :: c in candidates <==>
           c.driver in drivers && Supports(c.driver, device) && c == Judge(device)(c.driver)
  {
    var ranked := Ranked(drivers, device);
    RankedMembers(drivers, device);
    SupportedMembers(ranked);
    SupportedSorted(ranked);
    var judged := Map(Judge(device), drivers);
    assert forall i :: 0 <= i < |judged| ==> judged[i].driver == drivers[i];
    NoRepeatsPermutation(judged, ranked);
    SupportedKeepsNoRepeats(ranked);
  }

  lemma SameIdSameDriver(drivers: seq<Driver>, d: Driver, e: Driver)
    requires DistinctDriverIds(drivers) && d in drivers && e in drivers && d.id == e.id
    ensures d == e
  {
  }

  lemma EqualRanksInIdOrder(drivers: seq<Driver>, device: Descriptor, c: Candidate, e: Candidate)
    requires DistinctDriverIds(drivers) && c.driver in drivers && e.driver in drivers
    requires c == Judge(device)(c.driver) && e == Judge(device)(e.driver) && c != e
    requires RanksFirst(c, e) && c.matched.SameRank(e.matched)
    ensures Less(c.driver.id, e.driver.id)
  {
    LessTotal(c.driver.id, e.driver.id);
    assert c.driver != e.driver;
  }

  /** The top group holds exactly the top drivers, in ascending id order. */
  lemma TopGroupMeaning(drivers: seq<Driver>, device: Descriptor)
    requires DistinctDriverIds(drivers)
    ensures Ascending(DriverIds(TopGroup(drivers, device)))
    ensures forall c :: c in TopGroup(drivers, device) <==>
      IsTop(drivers, device, c.driver) && c == Judge(device)(c.driver)
    ensures TopGroup(drivers, device) == [] <==> forall d :: d in drivers ==> !Supports(d, device)
  {
    var candidates, group := Supported(Ranked(drivers, device)), TopGroup(drivers, device);
    CandidatesMeaning(drivers, device);
    assert forall d :: d in drivers && Supports(d, device) ==> Judge(device)(d) in candidates;
    if candidates != [] {
      var best := candidates[0];
      assert best in candidates;
      forall c | c in candidates ensures !c.matched.Above(best.matched) {
        var k :| 0 <= k < |candidates| && candidates[k] == c;
        assert k > 0 ==> RanksFirst(best, candidates[k]);
      }
      SameRankIsPrefix(candidates, best);
      TopsRankWithBest(drivers, device, candidates);
      forall i, j | 0 <= i < j < |group| ensures Less(group[i].driver.id, group[j].driver.id) {
        assert group[i] == candidates[i] && group[j] == candidates[j];
        assert group[i] in group && group[j] in group;
        EqualRanksInIdOrder(drivers, device, group[i], group[j]);
      }
    }
  }

  /** A driver is a top driver exactly when it ranks with the first candidate. */
  lemma TopsRankWithBest(drivers: seq<Driver>, device: Descriptor, candidates: seq<Candidate>)
    requires candidates != []
    requires forall c :: c in candidates <==>
      c.driver in drivers && Supports(c.driver, device) && c == Judge(device)(c.driver)
    requires forall c :: c in candidates ==> !c.matched.Above(candidates[0].matched)
    ensures forall c :: c in candidates && c.matched.SameRank(candidates[0].matched) <==>
      IsTop(drivers, device, c.driver) && c == Judge(device)(c.driver)
  {
    var best := candidates[0];
    assert best in candidates;
    forall c ensures c in candidates && c.matched.SameRank(best.matched) <==>
      IsTop(drivers, device, c.driver) && c == Judge(device)(c.driver)
    {
      if c in candidates && c.matched.SameRank(best.matched) {
        forall other | other in drivers && Supports(other, device)
          ensures !other.matches(device).Above(c.driver.matches(device))
        {
          assert Judge(device)(other) in candidates;
        }
      }
      if IsTop(drivers, device, c.driver) && c == Judge(device)(c.driver) {
        assert c in candidates;
        assert !best.driver.matches(device).Above(c.driver.matches(device));
      }
    }
  }

  /** Two top groups with the same members are the same list. */
  lemma GroupDetermined(drivers: seq<Driver>, group: seq<Candidate>, other: seq<Candidate>)
    requires DistinctDriverIds(drivers)
    requires Ascending(DriverIds(group)) && Ascending(DriverIds(other))
    requires forall c :: c in group <==> c in other
    requires forall c, d :: c in group && d in group && c.driver.id == d.driver.id ==> c == d
    ensures group == other
  {
    forall id ensures id in DriverIds(group) <==> id in DriverIds(other) {
      if id in DriverIds(group) {
        var i :| 0 <= i < |group| && DriverIds(group)[i] == id;
        assert group[i] in other;
      }
      if id in DriverIds(other) {
        var i :| 0 <= i < |other| && DriverIds(other)[i] == id;
        assert other[i] in group;
      }
    }
    AscendingUnique(DriverIds(group), DriverIds(other));
    forall i | 0 <= i < |group| ensures group[i] == other[i] {
      assert DriverIds(group)[i] == DriverIds(other)[i];
      assert group[i] in group && other[i] in group;
    }
  }

  /** Resolution without a preference, read off the top group: nothing, its only member, or a conflict
      naming all its members in id order. */
  lemma ResolveByTopGroup(drivers: seq<Driver>, device: Descriptor)
    ensures var group := TopGroup(drivers, device);
      Resolve(drivers, None, device)
        == if group == [] then Err(NoMatchingDriver(device.id))
           else if |group| == 1 then Ok(group[0])
           else Err(ConflictingMatches(device.id, DriverIds(group)))
  {
    var candidates := Supported(Ranked(drivers, device));
    if candidates != [] { BestLeadsGroup(candidates); }
  }

  lemma DriverIdsCons(best: Candidate, rest: seq<Candidate>)
    ensures DriverIds([best] + rest) == [best.driver.id] + DriverIds(rest)
  {
  }

  lemma BestLeadsGroup(candidates: seq<Candidate>)
    requires candidates != []
    ensures var best, rest := candidates[0], TakeSameRank(candidates[1..], candidates[0]);
      && TakeSameRank(candidates, best) == [best] + rest
      && DriverIds(TakeSameRank(candidates, best)) == [best.driver.id] + DriverIds(rest)
  {
    DriverIdsCons(candidates[0], TakeSameRank(candidates[1..], candidates[0]));
  }

  /** Without a preference, `resolve` succeeds exactly with a driver that is the only top driver. */
  lemma ResolveOkIffUniqueTop(drivers: seq<Driver>, device: Descriptor, driver: Driver)
    requires DistinctDriverIds(drivers)
    ensures Resolve(drivers, None, device) == Ok(Judge(device)(driver)) <==>
      IsTop(drivers, device, driver) && forall other :: IsTop(drivers, device, other) ==> other == driver
  {
    var group := TopGroup(drivers, device);
    TopGroupMeaning(drivers, device);
    ResolveByTopGroup(drivers, device);
    if |group| == 1 {
      assert forall c :: c in group <==> c == group[0];
      if IsTop(drivers, device, driver) { assert Judge(device)(driver) in group; }
      forall other | IsTop(drivers, device, other) ensures other == group[0].driver {
        assert Judge(device)(other) in group;
      }
    } else if |group| > 1 {
      GroupOfSeveral(drivers, device);
    }
  }

  /** Two members of the top group are two drivers. */
  lemma GroupOfSeveral(drivers: seq<Driver>, device: Descriptor)
    requires DistinctDriverIds(drivers) && |TopGroup(drivers, device)| > 1
    ensures var group := TopGroup(drivers, device);
      IsTop(drivers, device, group[0].driver) && IsTop(drivers, device, group[1].driver)
      && group[0].driver != group[1].driver
  {
    var group := TopGroup(drivers, device);
    TopGroupMeaning(drivers, device);
    assert group[0] in group && group[1] in group;
    assert Less(DriverIds(group)[0], DriverIds(group)[1]);
    Asymmetric(group[0].driver.id, group[1].driver.id);
  }

  lemma TopsAreInGroup(drivers: seq<Driver>, device: Descriptor, d: Driver, e: Driver)
    requires DistinctDriverIds(drivers)
    requires IsTop(drivers, device, d) && IsTop(drivers, device, e) && d != e
    ensures |TopGroup(drivers, device)| > 1
  {
    var group := TopGroup(drivers, device);
    TopGroupMeaning(drivers, device);
    assert Judge(device)(d) in group && Judge(device)(e) in group;
  }

  ghost predicate SeveralTops(drivers: seq<Driver>, device: Descriptor) {
    exists d, e :: IsTop(drivers, device, d) && IsTop(drivers, device, e) && d != e
  }

  lemma GroupIds(drivers: seq<Driver>, device: Descriptor, id: DriverId)
    requires DistinctDriverIds(drivers)
    ensures id in DriverIds(TopGroup(drivers, device)) <==> exists d :: IsTop(drivers, device, d) && d.id == id
  {
    var group := TopGroup(drivers, device);
    TopGroupMeaning(drivers, device);
    if id in DriverIds(group) {
      var i :| 0 <= i < |group| && DriverIds(group)[i] == id;
      assert group[i] in group;
    }
    if d :| IsTop(drivers, device, d) && d.id == id {
      var i :| 0 <= i < |group| && group[i] == Judge(device)(d);
      assert DriverIds(group)[i] == id;
    }
  }

  ghost predicate Conflicts(r: Result<Candidate, RegistryError>) { r.Err? && r.error.ConflictingMatches? }

  /** Without a preference, `resolve` reports a conflict exactly when there are several top drivers, and
      lists all of their ids in ascending order; it finds nothing exactly when no driver supports the device. */
  lemma ResolveErrors(drivers: seq<Driver>, device: Descriptor)
    requires DistinctDriverIds(drivers)
    ensures Resolve(drivers, None, device) == Err(NoMatchingDriver(device.id)) <==>
      forall d :: d in drivers ==> !Supports(d, device)
    ensures SeveralTops(drivers, device) <==> Conflicts(Resolve(drivers, None, device))
    ensures Conflicts(Resolve(drivers, None, device)) ==>
      var ids := Resolve(drivers, None, device).error.driverIds;
      Ascending(ids) && forall id :: id in ids <==> exists d :: IsTop(drivers, device, d) && d.id == id
  {
    ResolveByTopGroup(drivers, device);
    NothingFound(drivers, device);
    if d, e :| IsTop(drivers, device, d) && IsTop(drivers, device, e) && d != e {
      TopsAreInGroup(drivers, device, d, e);
    }
    if |TopGroup(drivers, device)| > 1 {
      GroupOfSeveral(drivers, device);
      ConflictsInOrder(drivers, device);
      forall id
        ensures id in DriverIds(TopGroup(drivers, device)) <==> exists d :: IsTop(drivers, device, d) && d.id == id
      {
        GroupIds(drivers, device, id);
      }
    }
  }

  lemma NothingFound(drivers: seq<Driver>, device: Descriptor)
    requires DistinctDriverIds(drivers)
    ensures TopGroup(drivers, device) == [] <==> forall d :: d in drivers ==> !Supports(d, device)
  {
    TopGroupMeaning(drivers, device);
  }

  lemma ConflictsInOrder(drivers: seq<Driver>, device: Descriptor)
    requires DistinctDriverIds(drivers)
    ensures Ascending(DriverIds(TopGroup(drivers, device)))
  {
    TopGroupMeaning(drivers, device);
  }

  /** The best match is the top driver of smallest id; there is none exactly if no driver supports the device. */
  lemma BestMatchIsFirstTop(drivers: seq<Driver>, device: Descriptor)
    requires DistinctDriverIds(drivers)
    ensures BestMatch(drivers, device).None? <==> forall d :: d in drivers ==> !Supports(d, device)
    ensures BestMatch(drivers, device).Some? ==>
      var best := BestMatch(drivers, device).value.driver;
      IsTop(drivers, device, best)
      && forall d :: IsTop(drivers, device, d) ==> d == best || Less(best.id, d.id)
  {
    var group := TopGroup(drivers, device);
    TopGroupMeaning(drivers, device);
    FirstSupportedIsHead(Ranked(drivers, device));
    if group != [] {
      assert group[0] in group;
      forall d | IsTop(drivers, device, d) ensures d == group[0].driver || Less(group[0].driver.id, d.id) {
        var k :| 0 <= k < |group| && group[k] == Judge(device)(d);
        assert k > 0 ==> Less(DriverIds(group)[0], DriverIds(group)[k]);
      }
    }
  }

  /** With a preference, `resolve` gives the preferred driver if it supports the device, whatever else
      does, and otherwise reports that it did not match. */
  lemma ResolvePreferred(drivers: seq<Driver>, id: DriverId, device: Descriptor)
    requires DistinctDriverIds(drivers)
    ensures forall d :: d in drivers && d.id == id && Supports(d, device) ==>
      Resolve(drivers, Some(id), device) == Ok(Judge(device)(d))
    ensures (forall d :: d in drivers && d.id == id ==> !Supports(d, device)) ==>
      Resolve(drivers, Some(id), device) == Err(PreferredDriverDidNotMatch(device.id, id))
  {
    CandidatesMeaning(drivers, device);
    var candidates := Supported(Ranked(drivers, device));
    forall d | d in drivers && d.id == id && Supports(d, device)
      ensures Resolve(drivers, Some(id), device) == Ok(Judge(device)(d))
    {
      assert Judge(device)(d) in candidates;
      SameIdSameDriver(drivers, d, WithId(candidates, id).value.driver);
    }
  }

  lemma PreferredDecides(drivers: seq<Driver>, driver: Driver, device: Descriptor)
    requires DistinctDriverIds(drivers) && driver in drivers
    ensures Resolve(drivers, Some(driver.id), device)
      == if Supports(driver, device) then Ok(Candidate(driver, driver.matches(device)))
         else Err(PreferredDriverDidNotMatch(device.id, driver.id))
  {
    ResolvePreferred(drivers, driver.id, device);
    forall d | d in drivers && d.id == driver.id ensures d == driver { SameIdSameDriver(drivers, d, driver); }
  }

  /** The outcome without a preference: exactly the unique top driver; nothing found exactly if no driver supports
      the device; and else a conflict that lists exactly the top drivers in id order. */
  ghost predicate ByRank(drivers: seq<Driver>, device: Descriptor, r: Result<Candidate, RegistryError>) {
    && (forall d: Driver :: r == Ok(Candidate(d, d.matches(device))) <==>
          IsTop(drivers, device, d) && forall other :: IsTop(drivers, device, other) ==> other == d)
    && (r == Err(NoMatchingDriver(device.id)) <==> forall d :: d in drivers ==> !Supports(d, device))
    && (Conflicts(r) <==> SeveralTops(drivers, device))
    && (Conflicts(r) ==>
          && r.error.deviceId == device.id && Ascending(r.error.driverIds)
          && forall id :: id in r.error.driverIds <==> exists d :: IsTop(drivers, device, d) && d.id == id)
  }

  lemma ResolvedByRank(drivers: seq<Driver>, device: Descriptor)
    requires DistinctDriverIds(drivers)
    ensures ByRank(drivers, device, Resolve(drivers, None, device))
  {
    ResolveErrors(drivers, device);
    ResolveByTopGroup(drivers, device);
    forall d: Driver
      ensures Resolve(drivers, None, device) == Ok(Candidate(d, d.matches(device))) <==>
        IsTop(drivers, device, d) && forall other :: IsTop(drivers, device, other) ==> other == d
    {
      ResolveOkIffUniqueTop(drivers, device, d);
    }
  }

  /** The outcome does not depend on the order of registration. */
  lemma ResolveForgetsRegistrationOrder(
      drivers: seq<Driver>, reordered: seq<Driver>, preferred: Option<DriverId>, device: Descriptor)
    requires DistinctDriverIds(drivers) && multiset(drivers) == multiset(reordered)
    ensures Resolve(drivers, preferred, device) == Resolve(reordered, preferred, device)
    ensures BestMatch(drivers, device) == BestMatch(reordered, device)
  {
    RankingForgetsRegistrationOrder(drivers, reordered, device);
  }

  /** The new driver cannot win: it does not support the device, or a driver outranks it. */
  ghost predicate Outclassed(drivers: seq<Driver>, newcomer: Driver, device: Descriptor) {
    !Supports(newcomer, device)
    || exists d :: d in drivers && Supports(d, device) && d.matches(device).Above(newcomer.matches(device))
  }

  lemma SameTops(drivers: seq<Driver>, newcomer: Driver, device: Descriptor, driver: Driver)
    requires Outclassed(drivers, newcomer, device)
    ensures IsTop(drivers + [newcomer], device, driver) <==> IsTop(drivers, device, driver)
  {
  }

  /** Registering one more driver that cannot win never changes the outcome, with or without a preference
      for a driver that was already registered. */
  lemma OutclassedNewcomerChangesNothing(
      drivers: seq<Driver>, newcomer: Driver, preferred: Option<DriverId>, device: Descriptor)
    requires DistinctDriverIds(drivers + [newcomer]) && Outclassed(drivers, newcomer, device)
    requires preferred.Some? ==> exists d :: d in drivers && d.id == preferred.value
    ensures Resolve(drivers + [newcomer], preferred, device) == Resolve(drivers, preferred, device)
  {
    var more := drivers + [newcomer];
    assert forall d :: d in more <==> d in drivers || d == newcomer;
    assert DistinctDriverIds(drivers) by {
      assert forall i :: 0 <= i < |drivers| ==> more[i] == drivers[i];
    }
    if preferred.Some? {
      var d :| d in drivers && d.id == preferred.value;
      assert newcomer.id != d.id by {
        var i :| 0 <= i < |drivers| && drivers[i] == d;
        assert more[i] == d && more[|drivers|] == newcomer;
      }
      forall e | e in more && e.id == d.id ensures e == d { SameIdSameDriver(more, e, d); }
      ResolvePreferred(drivers, d.id, device);
      ResolvePreferred(more, d.id, device);
    } else {
      TopGroupMeaning(drivers, device);
      TopGroupMeaning(more, device);
      var before, after := TopGroup(drivers, device), TopGroup(more, device);
      forall c ensures c in before <==> c in after { SameTops(drivers, newcomer, device, c.driver); }
      GroupDetermined(drivers, before, after);
      ResolveByTopGroup(drivers, device);
      ResolveByTopGroup(more, device);
    }
  }

  // ---------- the registry object ----------

  class DriverRegistry {
    var drivers: seq<Driver>
    var preferredDrivers: map<DeviceId, DriverId>

    /** Driver ids are distinct and every preferred driver is registered. */
    ghost predicate Valid()
      reads this
    {
      && DistinctDriverIds(drivers)
      && forall id :: id in preferredDrivers ==> exists d :: d in drivers && d.id == preferredDrivers[id]
    }

    constructor ()
      ensures Valid() && drivers == [] && preferredDrivers == map[]
    {
      drivers := [];
      preferredDrivers := map[];
    }

    method RegisterBoxed(driver: Driver) returns (r: Option<RegistryError>)
      requires Valid()
      modifies this`drivers
      ensures Valid()
      ensures (exists d :: d in old(drivers) && d.id == driver.id) ==>
        r == Some(DuplicateDriverId(driver.id)) && drivers == old(drivers)
      ensures (forall d :: d in old(drivers) ==> d.id != driver.id) && driver.manifestFault.Some? ==>
        r == Some(InvalidManifest(driver.id, driver.manifestFault.value)) && drivers == old(drivers)
      ensures (forall d :: d in old(drivers) ==> d.id != driver.id) && driver.manifestFault.None? ==>
        r == None && drivers == old(drivers) + [driver]
    {
      if exists i :: 0 <= i < |drivers| && drivers[i].id == driver.id {
        return Some(DuplicateDriverId(driver.id));
      }
      if driver.manifestFault.Some? {
        return Some(InvalidManifest(driver.id, driver.manifestFault.value));
      }
      assert forall i :: 0 <= i < |drivers| ==> drivers[i] in drivers;
      drivers := drivers + [driver];
      return None;
    }

    method PreferDriverForDevice(deviceId: DeviceId, driverId: DriverId) returns (r: Option<RegistryError>)
      requires Valid()
      modifies this`preferredDrivers
      ensures Valid()
      ensures (exists d :: d in drivers && d.id == driverId) ==>
        r == None && preferredDrivers == old(preferredDrivers)[deviceId := driverId]
      ensures (forall d :: d in drivers ==> d.id != driverId) ==>
        r == Some(UnknownPreferredDriver(driverId)) && preferredDrivers == old(preferredDrivers)
    {
      if !exists i :: 0 <= i < |drivers| && drivers[i].id == driverId {
        return Some(UnknownPreferredDriver(driverId));
      }
      preferredDrivers := preferredDrivers[deviceId := driverId];
      return None;
    }

    method ClearPreferredDriverForDevice(deviceId: DeviceId) returns (r: Option<DriverId>)
      requires Valid()
      modifies this`preferredDrivers
      ensures Valid()
      ensures r == if deviceId in old(preferredDrivers) then Some(old(preferredDrivers)[deviceId]) else None
      ensures preferredDrivers == old(preferredDrivers) - {deviceId}
    {
      r := if deviceId in preferredDrivers then Some(preferredDrivers[deviceId]) else None;
      preferredDrivers := preferredDrivers - {deviceId};
    }

    function PreferredFor(device: Descriptor): Option<DriverId>
      reads this
    {
      if device.id in preferredDrivers then Some(preferredDrivers[device.id]) else None
    }

    /** The preference of this device, if it has one, decides; otherwise the unique top driver. */
    function ResolveDevice(device: Descriptor): (r: Result<Candidate, RegistryError>)
      requires Valid()
      reads this
      ensures device.id in preferredDrivers ==>
        exists d :: d in drivers && d.id == preferredDrivers[device.id]
          && r == if Supports(d, device) then Ok(Candidate(d, d.matches(device)))
                  else Err(PreferredDriverDidNotMatch(device.id, d.id))
      ensures device.id !in preferredDrivers ==> ByRank(drivers, device, r)
    {
      var r := Resolve(drivers, PreferredFor(device), device);
      ResolvedByRank(drivers, device);
      assert device.id in preferredDrivers ==>
        exists d :: d in drivers && d.id == preferredDrivers[device.id]
          && r == if Supports(d, device) then Ok(Candidate(d, d.matches(device)))
                  else Err(PreferredDriverDidNotMatch(device.id, d.id)) by
      {
        if device.id in preferredDrivers {
          var d :| d in drivers && d.id == preferredDrivers[device.id];
          PreferredDecides(drivers, d, device);
        }
      }
      r
    }

    method MatchReport(device: Descriptor) returns (report: DriverMatchReport)
      requires Valid()
      ensures report.deviceId == device.id
      ensures report.preferredDriverId
        == if device.id in preferredDrivers then Some(preferredDrivers[device.id]) else None
      ensures ListsEveryDriver(report, drivers, device)
      ensures InRankingOrder(report.supported) && InRankingOrder(report.rejected)
      ensures report == ReportFor(device.id, PreferredFor(device), Ranked(drivers, device))
      ensures PreferredFor(device).None? ==>
        && (|report.ConflictingTopMatches()| == 1 <==> ResolveDevice(device).Ok?)
        && (|report.ConflictingTopMatches()| >= 2 <==> Conflicts(ResolveDevice(device)))
    {
      report := FromRankedCandidates(device.id, PreferredFor(device), Ranked(drivers, device));
      ReportListsEveryDriver(drivers, PreferredFor(device), device);
      if PreferredFor(device).None? { ReportAgreesWithResolve(drivers, device); }
    }
  }

  // ---------- match reports ----------

  datatype Summary = Summary(
    driverId: DriverId, supported: bool, level: Level, score: U32, matchedRule: Option<nat>)

  function Summarize(): Candidate -> Summary {
    (c: Candidate) => Summary(
      c.driver.id, c.matched.IsSupported(), c.matched.level, c.matched.score, c.matched.matchedRule)
  }

  datatype DriverMatchReport = DriverMatchReport(
    deviceId: DeviceId, preferredDriverId: Option<DriverId>, supported: seq<Summary>, rejected: seq<Summary>)
  {
    function Best(): Option<Summary> {
      if supported == [] then None else Some(supported[0])
    }

    function ConflictingTopMatches(): seq<Summary> {
      if supported == [] then [] else LeadingLike(supported, supported[0])
    }
  }

  function LeadingLike(summaries: seq<Summary>, best: Summary): seq<Summary> {
    if summaries == [] || !(summaries[0].score == best.score && summaries[0].level == best.level) then []
    else [summaries[0]] + LeadingLike(summaries[1..], best)
  }

  /** The report lists the supporting and the other candidates, each in ranking order. */
  ghost function ReportFor(deviceId: DeviceId, preferred: Option<DriverId>, ranked: seq<Candidate>): DriverMatchReport {
    DriverMatchReport(deviceId, preferred, Map(Summarize(), Supported(ranked)), Map(Summarize(), Rejected(ranked)))
  }

  lemma {:induction false} SupportedSnoc(ranked: seq<Candidate>, last: Candidate)
    ensures Supported(ranked + [last]) == Supported(ranked) + if last.matched.IsSupported() then [last] else []
  {
    var more := ranked + [last];
    if ranked == [] {
      assert more[1..] == [];
    } else {
      assert more[0] == ranked[0] && more[1..] == ranked[1..] + [last];
      SupportedSnoc(ranked[1..], last);
      var first := if ranked[0].matched.IsSupported() then [ranked[0]] else [];
      var end := if last.matched.IsSupported() then [last] else [];
      assert first + (Supported(ranked[1..]) + end) == (first + Supported(ranked[1..])) + end;
    }
  }

  lemma {:induction false} RejectedSnoc(ranked: seq<Candidate>, last: Candidate)
    ensures Rejected(ranked + [last]) == Rejected(ranked) + if last.matched.IsSupported() then [] else [last]
  {
    var more := ranked + [last];
    if ranked == [] {
      assert more[1..] == [];
    } else {
      assert more[0] == ranked[0] && more[1..] == ranked[1..] + [last];
      RejectedSnoc(ranked[1..], last);
      var first := if ranked[0].matched.IsSupported() then [] else [ranked[0]];
      var end := if last.matched.IsSupported() then [] else [last];
      assert first + (Rejected(ranked[1..]) + end) == (first + Rejected(ranked[1..])) + end;
    }
  }

  method FromRankedCandidates(deviceId: DeviceId, preferred: Option<DriverId>, ranked: seq<Candidate>)
    returns (report: DriverMatchReport)
    ensures report == ReportFor(deviceId, preferred, ranked)
  {
    var supported: seq<Summary>, rejected: seq<Summary> := [], [];
    for i := 0 to |ranked|
      invariant supported == Map(Summarize(), Supported(ranked[..i]))
      invariant rejected == Map(Summarize(), Rejected(ranked[..i]))
    {
      assert ranked[..i + 1] == ranked[..i] + [ranked[i]];
      SupportedSnoc(ranked[..i], ranked[i]);
      RejectedSnoc(ranked[..i], ranked[i]);
      var summary := Summarize()(ranked[i]);
      if summary.supported {
        supported := supported + [summary];
      } else {
        rejected := rejected + [summary];
      }
    }
    assert ranked[..|ranked|] == ranked;
    report := DriverMatchReport(deviceId, preferred, supported, rejected);
  }

  lemma {:induction false} LeadingLikeSummaries(candidates: seq<Candidate>, best: Candidate)
    ensures LeadingLike(Map(Summarize(), candidates), Summarize()(best))
      == Map(Summarize(), TakeSameRank(candidates, best))
  {
    if candidates != [] {
      assert Map(Summarize(), candidates)[1..] == Map(Summarize(), candidates[1..]);
      LeadingLikeSummaries(candidates[1..], best);
    }
  }

  lemma {:induction false} FirstSupportedIsHead(ranked: seq<Candidate>)
    ensures FirstSupported(ranked) == if Supported(ranked) == [] then None else Some(Supported(ranked)[0])
  {
    if ranked != [] { FirstSupportedIsHead(ranked[1..]); }
  }

  /** The summary is of this driver and tells its verdict on the device. */
  predicate Tells(summary: Summary, driver: Driver, device: Descriptor) {
    var verdict := driver.matches(device);
    && summary.driverId == driver.id && summary.level == verdict.level && summary.score == verdict.score
    && summary.matchedRule == verdict.matchedRule
    && (summary.supported <==> !verdict.level.Unsupported?)
  }

  ghost predicate HasSummary(summaries: seq<Summary>, driver: Driver, device: Descriptor) {
    exists k :: 0 <= k < |summaries| && Tells(summaries[k], driver, device)
  }

  ghost predicate OfSomeDriver(summary: Summary, drivers: seq<Driver>, device: Descriptor) {
    exists d :: d in drivers && Tells(summary, d, device)
  }

  /** The summaries are those of the registered drivers that support the device, or of those that do not. */
  ghost predicate Lists(summaries: seq<Summary>, drivers: seq<Driver>, device: Descriptor, supported: bool) {
    && (forall d :: d in drivers && Supports(d, device) == supported ==> HasSummary(summaries, d, device))
    && (forall k :: 0 <= k < |summaries| ==>
          summaries[k].supported == supported && OfSomeDriver(summaries[k], drivers, device))
  }

  /** Each registered driver has exactly one summary, among the supported ones exactly if it supports the device;
      and there are no others. */
  ghost predicate ListsEveryDriver(report: DriverMatchReport, drivers: seq<Driver>, device: Descriptor) {
    && Lists(report.supported, drivers, device, true) && Lists(report.rejected, drivers, device, false)
    && |report.supported| + |report.rejected| == |drivers|
  }

  /** Higher score first, then higher level, then smaller id. */
  ghost predicate InRankingOrder(summaries: seq<Summary>) {
    forall i, j :: 0 <= i < j < |summaries| ==>
      var s, t := summaries[i], summaries[j];
      if s.score != t.score then s.score > t.score
      else if s.level != t.level then s.level.Rank() > t.level.Rank()
      else Less(s.driverId, t.driverId)
  }

  lemma {:induction false} RejectedMembers(ranked: seq<Candidate>)
    ensures forall c :: c in Rejected(ranked) <==> c in ranked && !c.matched.IsSupported()
    ensures |Supported(ranked)| + |Rejected(ranked)| == |ranked|
  {
    if ranked != [] { RejectedMembers(ranked[1..]); }
  }

  lemma {:induction false} RejectedSorted(ranked: seq<Candidate>)
    requires Sorted(RanksFirst, ranked) && NoRepeats(ranked)
    ensures Sorted(RanksFirst, Rejected(ranked)) && NoRepeats(Rejected(ranked))
  {
    if ranked != [] {
      RejectedSorted(ranked[1..]);
      RejectedMembers(ranked[1..]);
      var rest := Rejected(ranked[1..]);
      forall k | 0 <= k < |rest| ensures RanksFirst(ranked[0], rest[k]) && rest[k] != ranked[0] {
        assert rest[k] in rest;
      }
    }
  }

  lemma RankedHasNoRepeats(drivers: seq<Driver>, device: Descriptor)
    requires DistinctDriverIds(drivers)
    ensures NoRepeats(Ranked(drivers, device)) && |Ranked(drivers, device)| == |drivers|
  {
    RanksFirstIsOrder();
    var judged := Map(Judge(device), drivers);
    SortSorted(RanksFirst, judged);
    assert forall i :: 0 <= i < |judged| ==> judged[i].driver == drivers[i];
    NoRepeatsPermutation(judged, Ranked(drivers, device));
    assert |multiset(judged)| == |multiset(Ranked(drivers, device))|;
  }

  /** Candidates of equal support, sorted and without repeats, are summarized in ranking order. */
  lemma SummariesInOrder(drivers: seq<Driver>, device: Descriptor, candidates: seq<Candidate>)
    requires DistinctDriverIds(drivers) && Sorted(RanksFirst, candidates) && NoRepeats(candidates)
    requires forall c :: c in candidates ==> c.driver in drivers && c == Judge(device)(c.driver)
    requires forall c, e :: c in candidates && e in candidates ==> c.matched.IsSupported() == e.matched.IsSupported()
    ensures InRankingOrder(Map(Summarize(), candidates))
  {
    forall i, j | 0 <= i < j < |candidates|
      ensures var s, t := Map(Summarize(), candidates)[i], Map(Summarize(), candidates)[j];
        if s.score != t.score then s.score > t.score
        else if s.level != t.level then s.level.Rank() > t.level.Rank()
        else Less(s.driverId, t.driverId)
    {
      var c, e := candidates[i], candidates[j];
      assert c in candidates && e in candidates && c != e && RanksFirst(c, e);
      if c.matched.SameRank(e.matched) { EqualRanksInIdOrder(drivers, device, c, e); }
    }
  }

  lemma SummariesList(drivers: seq<Driver>, device: Descriptor, candidates: seq<Candidate>, supported: bool)
    requires forall c :: c in candidates <==>
      c.driver in drivers && Supports(c.driver, device) == supported && c == Judge(device)(c.driver)
    ensures Lists(Map(Summarize(), candidates), drivers, device, supported)
  {
    var summaries := Map(Summarize(), candidates);
    forall d | d in drivers && Supports(d, device) == supported ensures HasSummary(summaries, d, device) {
      var c := Judge(device)(d);
      assert c in candidates;
      var k :| 0 <= k < |candidates| && candidates[k] == c;
      assert Tells(summaries[k], d, device);
    }
    forall k | 0 <= k < |summaries|
      ensures summaries[k].supported == supported && OfSomeDriver(summaries[k], drivers, device)
    {
      assert candidates[k] in candidates && Tells(summaries[k], candidates[k].driver, device);
    }
  }

  lemma ReportListsEveryDriver(drivers: seq<Driver>, preferred: Option<DriverId>, device: Descriptor)
    requires DistinctDriverIds(drivers)
    ensures var report := ReportFor(device.id, preferred, Ranked(drivers, device));
      && ListsEveryDriver(report, drivers, device)
      && InRankingOrder(report.supported) && InRankingOrder(report.rejected)
  {
    var ranked := Ranked(drivers, device);
    CandidatesMeaning(drivers, device);
    RankedMembers(drivers, device);
    RankedHasNoRepeats(drivers, device);
    RejectedSorted(ranked);
    RejectedMembers(ranked);
    SummariesList(drivers, device, Supported(ranked), true);
    SummariesList(drivers, device, Rejected(ranked), false);
    SummariesInOrder(drivers, device, Supported(ranked));
    SummariesInOrder(drivers, device, Rejected(ranked));
  }

  /** The report agrees with resolution without a preference: its top matches are none, one or several
      exactly when `resolve` finds nothing, that driver, or a conflict among these ids; and its best entry
      is the best match. */
  lemma ReportAgreesWithResolve(drivers: seq<Driver>, device: Descriptor)
    ensures var report := ReportFor(device.id, None, Ranked(drivers, device));
      var tops, best := report.ConflictingTopMatches(), BestMatch(drivers, device);
      && (Resolve(drivers, None, device) == Err(NoMatchingDriver(device.id)) <==> |tops| == 0)
      && (Resolve(drivers, None, device).Ok? <==> |tops| == 1)
      && (|tops| == 1 ==> Summarize()(Resolve(drivers, None, device).value) == tops[0])
      && (|tops| >= 2 ==>
            Resolve(drivers, None, device)
              == Err(ConflictingMatches(device.id, seq(|tops|, i requires 0 <= i < |tops| => tops[i].driverId))))
      && report.Best() == (if best.Some? then Some(Summarize()(best.value)) else None)
  {
    var candidates, group := Supported(Ranked(drivers, device)), TopGroup(drivers, device);
    var tops := ReportFor(device.id, None, Ranked(drivers, device)).ConflictingTopMatches();
    ResolveByTopGroup(drivers, device);
    FirstSupportedIsHead(Ranked(drivers, device));
    if candidates != [] {
      LeadingLikeSummaries(candidates, candidates[0]);
      assert tops == Map(Summarize(), group);
      assert DriverIds(group) == seq(|tops|, i requires 0 <= i < |tops| => tops[i].driverId);
    }
  }
}
