/**
 The official race calendar: what a schedule must satisfy (domain/race_config.rs), and the
 administrators that change it (services/race_config_admin.rs) through a store that accepts a
 change only at the revision it was made for (db/repos/race_config.rs).
 */
module RaceCalendar {
  import opened Prelude
  import opened Roster

  datatype Placement = UnspecifiedPlacement | Random | Scoreboard | ReversedScoreboard

  datatype Preset = UnspecifiedPreset | Morning | Noon | Evening | Night

  datatype Multiplier = Finite(factor: real) | NotFinite

  datatype Config = Config(
    raceName: string,
    startsAt: i64,
    durationSec: u32,
    mapId: string,
    placement: Placement,
    multiplier: Multiplier,
    preset: Preset)

  type Race = Entry<Config>

  function EndsAt(c: Config): int {
    c.startsAt + c.durationSec * 1000
  }

  // ----- Validation -----

  datatype DomainError =
    | EmptyRaceId(index: nat)
    | DuplicateRaceId(index: nat, raceId: string)
    | EmptyRaceName(index: nat)
    | EmptyMapId(index: nat)
    | UnspecifiedStartPlacementMode(index: nat)
    | UnspecifiedTimeOfDayPreset(index: nat)
    | InvalidPointsMultiplier(index: nat)
    | InvalidTimeWindow(index: nat, start: int, end: int)
    | NonIncreasingStartTime(index: nat, prev: int, current: int)
    | OverlappingTimeWindow(index: nat, prevEnd: int, currentStart: int)

  function ValidateInput(index: nat, c: Config): Check<DomainError> {
    if IsBlank(c.raceName) then Fail(EmptyRaceName(index))
    else if IsBlank(c.mapId) then Fail(EmptyMapId(index))
    else if c.placement == UnspecifiedPlacement then Fail(UnspecifiedStartPlacementMode(index))
    else if c.preset == UnspecifiedPreset then Fail(UnspecifiedTimeOfDayPreset(index))
    else if !(c.multiplier.Finite? && c.multiplier.factor > 0.0) then Fail(InvalidPointsMultiplier(index))
    else if c.startsAt >= EndsAt(c) then Fail(InvalidTimeWindow(index, c.startsAt, EndsAt(c)))
    else Pass
  }

  function ValidateOrderingAndOverlap(index: nat, startsAt: int, prevStart: Option<int>, prevEnd: Option<int>)
    : Check<DomainError>
  {
    if prevStart.Some? && startsAt <= prevStart.value then
      Fail(NonIncreasingStartTime(index, prevStart.value, startsAt))
    else if prevEnd.Some? && startsAt < prevEnd.value then
      Fail(OverlappingTimeWindow(index, prevEnd.value, startsAt))
    else Pass
  }

  /** The first objection to the entry at `index`, given those before it. */
  function Objection(s: seq<Race>, index: nat): Check<DomainError>
    requires index < |s|
  {
    var race := s[index];
    if IsBlank(race.id) then Fail(EmptyRaceId(index))
    else if Has(s[..index], race.id) then Fail(DuplicateRaceId(index, race.id))
    else
      var input := ValidateInput(index, race.info);
      if input.Fail? then input
      else if index == 0 then Pass
      else
        var prev := s[index - 1].info;
        ValidateOrderingAndOverlap(index, race.info.startsAt, Some(prev.startsAt), Some(EndsAt(prev)))
  }

  /** Reports the first objection to the first entry that has one. */
  method ValidateSchedule(s: seq<Race>) returns (r: Check<DomainError>)
    ensures r.Pass? <==> forall k | 0 <= k < |s| :: Objection(s, k).Pass?
    ensures r.Fail? ==> exists k | 0 <= k < |s| ::
                          r == Objection(s, k) && forall j | 0 <= j < k :: Objection(s, j).Pass?
  {
    var seenRaceIds: set<string> := {};
    var prevStart: Option<int> := None;
    var prevEnd: Option<int> := None;
    for i := 0 to |s|
      invariant forall k | 0 <= k < i :: Objection(s, k).Pass?
      invariant seenRaceIds == Ids(s[..i])
      invariant prevStart == if i == 0 then None else Some(s[i - 1].info.startsAt)
      invariant prevEnd == if i == 0 then None else Some(EndsAt(s[i - 1].info))
    {
      var race := s[i];
      if IsBlank(race.id) {
        return Objection(s, i);
      }
      if race.id in seenRaceIds {
        r := Fail(DuplicateRaceId(i, race.id));
        assert r == Objection(s, i);
        return;
      }
      var input := ValidateInput(i, race.info);
      if input.Fail? {
        assert input == Objection(s, i);
        return input;
      }
      var order := ValidateOrderingAndOverlap(i, race.info.startsAt, prevStart, prevEnd);
      if order.Fail? {
        assert order == Objection(s, i);
        return order;
      }
      assert s[..i + 1] == s[..i] + [race];
      seenRaceIds := seenRaceIds + {race.id};
      prevStart := Some(race.info.startsAt);
      prevEnd := Some(EndsAt(race.info));
    }
    return Pass;
  }

  // ----- What a calendar is -----

  /** A race is on from its start until its duration in seconds is over. */
  ghost predicate RunsAt(c: Config, t: int) {
    c.startsAt <= t && (t - c.startsAt) / 1000 < c.durationSec
  }

  lemma {:induction false} RunsUntilItsEnd(c: Config, t: int)
    ensures RunsAt(c, t) <==> c.startsAt <= t < EndsAt(c)
  {
  }

  /** No instant belongs to both races. */
  ghost predicate Apart(a: Config, b: Config) {
    forall t :: !(RunsAt(a, t) && RunsAt(b, t))
  }

  ghost predicate Compatible(a: Race, b: Race) {
    a.id != b.id && Apart(a.info, b.info)
  }

  /** The end of the race, in milliseconds, is a representable instant. */
  predicate EndFits(c: Config) {
    c.durationSec * 1000 <= I64_MAX - c.startsAt
  }

  ghost predicate Sound(r: Race) {
    && !IsBlank(r.id) && !IsBlank(r.info.raceName) && !IsBlank(r.info.mapId)
    && r.info.placement != UnspecifiedPlacement && r.info.preset != UnspecifiedPreset
    && r.info.multiplier.Finite? && r.info.multiplier.factor > 0.0
    && r.info.durationSec > 0 && EndFits(r.info)
  }

  lemma {:induction false} SoundIsValid(r: Race)
    ensures Sound(r) <==> !IsBlank(r.id) && ValidateInput(0, r.info).Pass? && EndsAt(r.info) <= I64_MAX
  {
  }

  /** What an objection says of its entry is true, in the numbers it names. */
  lemma {:induction false} ObjectionsAreTrue(s: seq<Race>, index: nat)
    requires index < |s| && Objection(s, index).Fail?
    ensures var c := s[index].info;
            match Objection(s, index).reason
            case EmptyRaceId(i) => i == index && IsBlank(s[index].id)
            case DuplicateRaceId(i, raceId) =>
              i == index && raceId == s[index].id && exists j | 0 <= j < index :: s[j].id == raceId
            case EmptyRaceName(i) => i == index && IsBlank(c.raceName)
            case EmptyMapId(i) => i == index && IsBlank(c.mapId)
            case UnspecifiedStartPlacementMode(i) => i == index && c.placement == UnspecifiedPlacement
            case UnspecifiedTimeOfDayPreset(i) => i == index && c.preset == UnspecifiedPreset
            case InvalidPointsMultiplier(i) => i == index && (c.multiplier.Finite? ==> c.multiplier.factor <= 0.0)
            case InvalidTimeWindow(i, start, end) =>
              i == index && c.durationSec == 0 && start == c.startsAt == end
            case NonIncreasingStartTime(i, prev, current) =>
              && i == index > 0 && current == c.startsAt <= prev == s[index - 1].info.startsAt
            case OverlappingTimeWindow(i, prevEnd, current) =>
              && i == index > 0 && current == c.startsAt
              && prevEnd == s[index - 1].info.startsAt + 1000 * s[index - 1].info.durationSec > current
  {
    if Has(s[..index], s[index].id) {
      var e :| e in s[..index] && e.id == s[index].id;
      var j :| 0 <= j < index && s[j] == e;
    }
  }

  ghost predicate PairwiseCompatible(s: seq<Race>) {
    forall i, j | 0 <= i < j < |s| :: Compatible(s[i], s[j])
  }

  ghost predicate GoodCalendar(s: seq<Race>) {
    (forall r | r in s :: Sound(r)) && PairwiseCompatible(s)
  }

  lemma {:induction false} ApartMeansOneEndsFirst(a: Config, b: Config)
    requires a.startsAt < EndsAt(a) && b.startsAt < EndsAt(b)
    ensures Apart(a, b) <==> EndsAt(a) <= b.startsAt || EndsAt(b) <= a.startsAt
  {
    var t := if a.startsAt <= b.startsAt then b.startsAt else a.startsAt;
    RunsUntilItsEnd(a, t);
    RunsUntilItsEnd(b, t);
    if EndsAt(a) <= b.startsAt || EndsAt(b) <= a.startsAt {
      forall x ensures !(RunsAt(a, x) && RunsAt(b, x)) {
        RunsUntilItsEnd(a, x);
        RunsUntilItsEnd(b, x);
      }
    }
    assert RunsAt(a, t) && RunsAt(b, t) <==> t < EndsAt(a) && t < EndsAt(b);
  }

  // ----- Sorting -----

  predicate Leq(a: Race, b: Race) {
    a.info.startsAt < b.info.startsAt || (a.info.startsAt == b.info.startsAt && StringLeq(a.id, b.id))
  }

  function InsertByStart(r: Race, s: seq<Race>): seq<Race> {
    if s == [] || Leq(r, s[0]) then [r] + s else [s[0]] + InsertByStart(r, s[1..])
  }

  /** The stable sort by start time, then id. */
  function SortByStart(s: seq<Race>): seq<Race> {
    if s == [] then [] else InsertByStart(s[0], SortByStart(s[1..]))
  }

  predicate Ordered(s: seq<Race>) {
    forall i | 0 < i < |s| :: Leq(s[i - 1], s[i])
  }

  lemma {:induction false} InsertKeepsAll(r: Race, s: seq<Race>)
    ensures multiset(InsertByStart(r, s)) == multiset(s) + multiset{r}
  {
    if s != [] {
      assert s == [s[0]] + s[1..];
      if !Leq(r, s[0]) {
        InsertKeepsAll(r, s[1..]);
      }
    }
  }

  lemma {:induction false} OrderedFromTheFront(a: Race, s: seq<Race>)
    requires Ordered(s) && (s != [] ==> Leq(a, s[0]))
    ensures Ordered([a] + s)
  {
  }

  lemma {:induction false} InsertKeepsOrder(r: Race, s: seq<Race>)
    requires Ordered(s)
    ensures Ordered(InsertByStart(r, s))
    ensures InsertByStart(r, s)[0] == r || (s != [] && InsertByStart(r, s)[0] == s[0])
  {
    if s != [] && !Leq(r, s[0]) {
      StringLeqIsTotal(r.id, s[0].id);
      InsertKeepsOrder(r, s[1..]);
      OrderedFromTheFront(s[0], InsertByStart(r, s[1..]));
    } else {
      OrderedFromTheFront(r, s);
    }
  }

  lemma {:induction false} SortIsAPermutationInOrder(s: seq<Race>)
    ensures Ordered(SortByStart(s)) && multiset(SortByStart(s)) == multiset(s)
  {
    if s != [] {
      assert s == [s[0]] + s[1..];
      SortIsAPermutationInOrder(s[1..]);
      InsertKeepsAll(s[0], SortByStart(s[1..]));
      InsertKeepsOrder(s[0], SortByStart(s[1..]));
    }
  }

  // ----- Sorted validation decides the calendar -----

  lemma {:induction false} EndsComeInOrder(s: seq<Race>, i: nat, j: nat)
    requires i < j < |s|
    requires forall k | 0 <= k < |s| :: Objection(s, k).Pass?
    ensures EndsAt(s[i].info) <= s[j].info.startsAt
  {
    assert Objection(s, j).Pass?;
    if i < j - 1 {
      EndsComeInOrder(s, i, j - 1);
      assert Objection(s, j - 1).Pass?;
    }
  }

  lemma {:induction false} PassingMeansGood(s: seq<Race>)
    requires forall k | 0 <= k < |s| :: Objection(s, k).Pass?
    requires forall r | r in s :: EndsAt(r.info) <= I64_MAX
    ensures GoodCalendar(s)
  {
    forall r | r in s ensures Sound(r) {
      var k :| 0 <= k < |s| && s[k] == r;
      assert Objection(s, k).Pass?;
    }
    forall i, j | 0 <= i < j < |s| ensures Compatible(s[i], s[j]) {
      assert Objection(s, i).Pass? && Objection(s, j).Pass?;
      assert s[..j][i] == s[i] && s[i] in s[..j];
      EndsComeInOrder(s, i, j);
      ApartMeansOneEndsFirst(s[i].info, s[j].info);
    }
  }

  lemma {:induction false} GoodMeansPassing(s: seq<Race>, k: nat)
    requires GoodCalendar(s) && Ordered(s) && k < |s|
    ensures Objection(s, k).Pass?
  {
    assert Sound(s[k]);
    assert forall j | 0 <= j < k :: s[..k][j] == s[j] && Compatible(s[j], s[k]);
    if k > 0 {
      assert Sound(s[k - 1]) && Leq(s[k - 1], s[k]) && Compatible(s[k - 1], s[k]);
      ApartMeansOneEndsFirst(s[k - 1].info, s[k].info);
    }
  }

  lemma {:induction false} CompatibleWithTheRest(s: seq<Race>, k: nat)
    requires PairwiseCompatible(s) && k < |s|
    ensures PairwiseCompatible(s[..k] + s[k + 1..])
    ensures forall r | r in s[..k] + s[k + 1..] :: Compatible(s[k], r)
  {
    var rest := s[..k] + s[k + 1..];
    forall r | r in rest ensures Compatible(s[k], r) {
      var i :| 0 <= i < |rest| && rest[i] == r;
      var j := if i < k then i else i + 1;
      assert s[j] == r;
      assert Compatible(s[if j < k then j else k], s[if j < k then k else j]);
    }
  }

  /** Being a good calendar does not depend on the order of the entries. */
  lemma {:induction false} OrderDoesNotMatter(s: seq<Race>, t: seq<Race>)
    requires multiset(s) == multiset(t) && PairwiseCompatible(s)
    ensures PairwiseCompatible(t)
    decreases |t|
  {
    if t != [] {
      assert t[0] in multiset(s);
      var k :| 0 <= k < |s| && s[k] == t[0];
      var rest := s[..k] + s[k + 1..];
      CompatibleWithTheRest(s, k);
      RestIsAPermutation(s, t, k);
      OrderDoesNotMatter(rest, t[1..]);
      PairwiseFromTheFront(t);
    }
  }

  lemma {:induction false} RestIsAPermutation(s: seq<Race>, t: seq<Race>, k: nat)
    requires k < |s| && t != [] && s[k] == t[0] && multiset(s) == multiset(t)
    ensures multiset(s[..k] + s[k + 1..]) == multiset(t[1..])
    ensures forall r :: r in t[1..] ==> r in s[..k] + s[k + 1..]
  {
    RemoveOne(s, k);
    RemoveFirst(t);
    MembersPermute(s[..k] + s[k + 1..], t[1..]);
  }

  lemma {:induction false} RemoveFirst(t: seq<Race>)
    requires t != []
    ensures multiset(t[1..]) == multiset(t) - multiset{t[0]}
  {
    assert t == [t[0]] + t[1..];
  }

  lemma {:induction false} RemoveOne(s: seq<Race>, k: nat)
    requires k < |s|
    ensures multiset(s[..k] + s[k + 1..]) == multiset(s) - multiset{s[k]}
  {
    assert s == s[..k] + [s[k]] + s[k + 1..];
  }

  lemma {:induction false} MembersPermute(s: seq<Race>, t: seq<Race>)
    requires multiset(s) == multiset(t)
    ensures forall r :: r in s <==> r in t
  {
    assert forall r :: r in s <==> r in multiset(s);
    assert forall r :: r in t <==> r in multiset(t);
  }

  lemma {:induction false} PairwiseFromTheFront(t: seq<Race>)
    requires t != [] && PairwiseCompatible(t[1..])
    requires forall r | r in t[1..] :: Compatible(t[0], r)
    ensures PairwiseCompatible(t)
  {
    forall i, j | 0 <= i < j < |t| ensures Compatible(t[i], t[j]) {
      assert t[j] == t[1..][j - 1];
      assert 0 < i ==> t[i] == t[1..][i - 1];
    }
  }

  lemma {:induction false} GoodnessPermutes(s: seq<Race>, t: seq<Race>)
    requires multiset(s) == multiset(t)
    ensures GoodCalendar(s) <==> GoodCalendar(t)
  {
    MembersPermute(s, t);
    if PairwiseCompatible(s) {
      OrderDoesNotMatter(s, t);
    }
    if PairwiseCompatible(t) {
      OrderDoesNotMatter(t, s);
    }
  }

  ghost predicate Acceptable(sorted: seq<Race>) {
    && (forall r | r in sorted :: EndsAt(r.info) <= I64_MAX)
    && (forall k | 0 <= k < |sorted| :: Objection(sorted, k).Pass?)
  }

  /** Sorting and then looking only at neighbours decides whether the races fit together. */
  lemma {:induction false} SortedValidationIsExact(candidate: seq<Race>)
    ensures Acceptable(SortByStart(candidate)) <==> GoodCalendar(candidate)
  {
    var sorted := SortByStart(candidate);
    SortIsAPermutationInOrder(candidate);
    GoodnessPermutes(candidate, sorted);
    if Acceptable(sorted) {
      PassingMeansGood(sorted);
    }
    if GoodCalendar(sorted) {
      forall k | 0 <= k < |sorted| ensures Objection(sorted, k).Pass? {
        GoodMeansPassing(sorted, k);
      }
      assert forall r | r in sorted :: Sound(r);
    }
  }

  // ----- The store and its administrators -----

  datatype Store = Store(revision: nat, races: seq<Race>)

  datatype Change = Create(race: Race) | Update(race: Race) | Delete(raceId: string)

  datatype AdminError =
    | BlankRaceId
    | RevisionMismatch(expected: nat, actual: nat)
    | NotFound(raceId: string)
    | AlreadyExists(raceId: string)
    | OutOfRange
    | Invalid(reason: DomainError)
    | Internal

  function After(races: seq<Race>, change: Change): seq<Race> {
    match change
    case Create(race) => races + [race]
    case Update(race) => Upsert(races, race)
    case Delete(raceId) => Without(races, raceId)
  }

  function Target(change: Change): string {
    if change.Delete? then change.raceId else change.race.id
  }

  /** Whether the store has what the change needs: an id that is new, or one that is there. */
  predicate Fits(races: seq<Race>, change: Change) {
    Has(races, Target(change)) != change.Create?
  }

  /** The store's transaction; `storable` is whether the database itself takes the row. */
  function Commit(s: Store, expected: nat, change: Change, storable: bool): (Store, Result<nat, AdminError>) {
    if expected != s.revision then (s, Failure(RevisionMismatch(expected, s.revision)))
    else if !Fits(s.races, change) then
      (s, Failure(if change.Create? then AlreadyExists(Target(change)) else NotFound(Target(change))))
    else if !storable || s.revision + 1 > I64_MAX then (s, Failure(Internal))
    else (Store(s.revision + 1, After(s.races, change)), Success(s.revision + 1))
  }

  /** A change goes through exactly at its revision, for an id that is new or there, if it can be stored. */
  lemma {:induction false} CommitsAreExact(s: Store, expected: nat, change: Change, storable: bool)
    requires Distinct(s.races)
    ensures var (next, r) := Commit(s, expected, change, storable);
            var known := exists race :: race in s.races && race.id == Target(change);
            && (r.Success? <==>
                  && expected == s.revision && (if change.Create? then !known else known)
                  && storable && s.revision < I64_MAX)
            && (r.Failure? ==>
                  && next == s
                  && match r.error
                     case RevisionMismatch(e, actual) => e == expected != actual == s.revision
                     case AlreadyExists(raceId) => change.Create? && known && raceId == change.race.id
                     case NotFound(raceId) => !change.Create? && !known && raceId == Target(change)
                     case Internal => !storable || s.revision >= I64_MAX
                     case _ => false)
            && (r.Success? ==>
                  && next.revision == r.value == s.revision + 1
                  && forall race :: race in next.races <==>
                       || (race in s.races && race.id != Target(change))
                       || (!change.Delete? && race == change.race))
  {
    match change
    case Create(race) =>
      forall r ensures r in s.races + [race] <==> r in s.races || r == race {
      }
    case Update(race) => UpsertIn(s.races, race);
    case Delete(raceId) => WithoutIn(s.races, raceId);
  }

  /** What a handler asks of the snapshot it has read before it lets a change go to the store. */
  ghost predicate Prepared(rows: seq<Race>, revision: nat, expected: nat, change: Change) {
    && expected == revision
    && (change.Create? || (!IsBlank(Target(change)) && Has(rows, Target(change))))
    && (change.Delete? || Acceptable(SortByStart(After(rows, change))))
  }

  // ----- Every run keeps the calendar good -----

  datatype Admin = Checked(expected: nat, change: Change) | Answered

  datatype System = System(store: Store, admins: map<nat, Admin>)

  /** The snapshot comes in whatever order the database gives it. */
  datatype Step =
    | Prepare(admin: nat, rows: seq<Race>, expected: nat, change: Change)
    | Submit(admin: nat, storable: bool)

  ghost function Next(s: System, step: Step): System {
    match step
    case Prepare(a, rows, expected, change) =>
      if a in s.admins || multiset(rows) != multiset(s.store.races) then s
      else
        s.(admins := s.admins[a := if Prepared(rows, s.store.revision, expected, change)
                                   then Checked(expected, change) else Answered])
    case Submit(a, storable) =>
      if a in s.admins && s.admins[a].Checked? then
        System(Commit(s.store, s.admins[a].expected, s.admins[a].change, storable).0,
               s.admins[a := Answered])
      else s
  }

  ghost predicate AdminInv(store: Store, admin: Admin) {
    admin.Checked? ==>
      && admin.expected <= store.revision
      && (admin.expected == store.revision && Fits(store.races, admin.change) ==>
            GoodCalendar(After(store.races, admin.change)))
  }

  ghost predicate Inv(s: System) {
    && GoodCalendar(s.store.races)
    && (forall a | a in s.admins :: AdminInv(s.store, s.admins[a]))
  }

  lemma {:induction false} GoodByMembers(s: seq<Race>)
    ensures GoodCalendar(s) <==>
            && Distinct(s)
            && (forall r | r in s :: Sound(r))
            && (forall a, b | a in s && b in s && a.id != b.id :: Apart(a.info, b.info))
  {
    if GoodCalendar(s) {
      assert forall i, j | 0 <= i < j < |s| :: Compatible(s[i], s[j]);
      forall a, b | a in s && b in s && a.id != b.id ensures Apart(a.info, b.info) {
        var i :| 0 <= i < |s| && s[i] == a;
        var j :| 0 <= j < |s| && s[j] == b;
        assert Compatible(s[if i < j then i else j], s[if i < j then j else i]);
      }
    }
  }

  lemma {:induction false} SameMembersSameGoodness(s: seq<Race>, t: seq<Race>)
    requires Distinct(s) && Distinct(t) && forall r :: r in s <==> r in t
    ensures GoodCalendar(s) <==> GoodCalendar(t)
  {
    GoodByMembers(s);
    GoodByMembers(t);
  }

  lemma {:induction false} GoodIsDistinct(s: seq<Race>)
    requires GoodCalendar(s)
    ensures Distinct(s)
  {
    assert forall i, j | 0 <= i < j < |s| :: Compatible(s[i], s[j]);
  }

  /** Applying a change commutes with reordering, as far as being a good calendar is concerned. */
  lemma {:induction false} ChangePermutes(rows: seq<Race>, races: seq<Race>, change: Change)
    requires multiset(rows) == multiset(races) && GoodCalendar(races) && !change.Delete?
    ensures GoodCalendar(After(rows, change)) <==> GoodCalendar(After(races, change))
  {
    GoodnessPermutes(rows, races);
    if change.Create? {
      GoodnessPermutes(rows + [change.race], races + [change.race]);
    } else {
      GoodIsDistinct(rows);
      GoodIsDistinct(races);
      MembersPermute(rows, races);
      UpsertIn(rows, change.race);
      UpsertIn(races, change.race);
      SameMembersSameGoodness(Upsert(rows, change.race), Upsert(races, change.race));
    }
  }

  /** A deletion is never validated, and need not be. */
  lemma {:induction false} DeletionKeepsGood(races: seq<Race>, raceId: string)
    requires GoodCalendar(races)
    ensures GoodCalendar(Without(races, raceId))
  {
    GoodByMembers(races);
    WithoutIn(races, raceId);
    WithoutDistinct(races, raceId);
    GoodByMembers(Without(races, raceId));
  }

  lemma {:induction false} PreparedIsGood(rows: seq<Race>, store: Store, expected: nat, change: Change)
    requires multiset(rows) == multiset(store.races) && GoodCalendar(store.races)
    requires Prepared(rows, store.revision, expected, change)
    ensures GoodCalendar(After(store.races, change))
  {
    if change.Delete? {
      DeletionKeepsGood(store.races, change.raceId);
    } else {
      SortedValidationIsExact(After(rows, change));
      ChangePermutes(rows, store.races, change);
    }
  }

  lemma {:induction false} StepKeepsInv(s: System, step: Step)
    requires Inv(s)
    ensures Inv(Next(s, step))
  {
    match step
    case Prepare(a, rows, expected, change) =>
      if Next(s, step) != s && Prepared(rows, s.store.revision, expected, change) {
        PreparedIsGood(rows, s.store, expected, change);
      }
    case Submit(a, storable) =>
      if a in s.admins && s.admins[a].Checked? {
        assert AdminInv(s.store, s.admins[a]);
        var next := Next(s, step);
        forall b | b in next.admins ensures AdminInv(next.store, next.admins[b]) {
          assert b != a ==> AdminInv(s.store, s.admins[b]);
        }
      }
  }

  ghost function StateAt(start: Store, steps: seq<Step>, i: nat): System
    requires i <= |steps|
  {
    if i == 0 then System(start, map[]) else Next(StateAt(start, steps, i - 1), steps[i - 1])
  }

  /**
   However the administrators' reads, checks and submissions interleave, every stored calendar has
   unique ids, sound entries and at most one race at any instant.
   */
  lemma {:induction false} CalendarStaysGood(start: Store, steps: seq<Step>, i: nat)
    requires GoodCalendar(start.races) && i <= |steps|
    ensures Inv(StateAt(start, steps, i))
    ensures OneRaceAtATime(StateAt(start, steps, i).store.races)
  {
    if i > 0 {
      CalendarStaysGood(start, steps, i - 1);
      StepKeepsInv(StateAt(start, steps, i - 1), steps[i - 1]);
    }
    GoodMeansOneRaceAtATime(StateAt(start, steps, i).store.races);
  }

  ghost predicate OneRaceAtATime(s: seq<Race>) {
    forall t, i, j | 0 <= i < j < |s| :: !(RunsAt(s[i].info, t) && RunsAt(s[j].info, t))
  }

  lemma {:induction false} GoodMeansOneRaceAtATime(s: seq<Race>)
    requires GoodCalendar(s)
    ensures OneRaceAtATime(s)
  {
    assert forall i, j | 0 <= i < j < |s| :: Compatible(s[i], s[j]);
  }

  // ----- The handlers -----

  /** Replacing the entry that a search has found is what an update means. */
  lemma {:induction false} UpsertHere(races: seq<Race>, race: Race, i: nat)
    requires i < |races| && races[i].id == race.id
    requires forall j | 0 <= j < i :: races[j].id != race.id
    ensures races[i := race] == After(races, Update(race)) && Fits(races, Update(race))
  {
    UpsertAt(races, race, i);
    assert races[i] in races;
  }

  class RaceConfigRepo {
    var revision: nat
    var races: seq<Race>

    ghost function State(): Store
      reads this
    {
      Store(revision, races)
    }

    constructor ()
      ensures State() == Store(0, [])
    {
      revision, races := 0, [];
    }

    method CreateConfig(expected: nat, race: Race, storable: bool) returns (r: Result<nat, AdminError>)
      modifies this
      ensures (State(), r) == Commit(old(State()), expected, Create(race), storable)
    {
      if expected != revision {
        return Failure(RevisionMismatch(expected, revision));
      }
      var found := IndexOf(races, race.id);
      if found.Some? {
        return Failure(AlreadyExists(race.id));
      }
      if !storable || revision + 1 > I64_MAX {
        return Failure(Internal);
      }
      races := races + [race];
      revision := revision + 1;
      return Success(revision);
    }

    method UpdateConfig(expected: nat, race: Race, storable: bool) returns (r: Result<nat, AdminError>)
      modifies this
      ensures (State(), r) == Commit(old(State()), expected, Update(race), storable)
    {
      if expected != revision {
        return Failure(RevisionMismatch(expected, revision));
      }
      var found := IndexOf(races, race.id);
      if found.None? {
        return Failure(NotFound(race.id));
      }
      if !storable || revision + 1 > I64_MAX {
        return Failure(Internal);
      }
      UpsertHere(races, race, found.value);
      races := races[found.value := race];
      revision := revision + 1;
      return Success(revision);
    }

    method DeleteConfig(expected: nat, raceId: string, storable: bool) returns (r: Result<nat, AdminError>)
      modifies this
      ensures (State(), r) == Commit(old(State()), expected, Delete(raceId), storable)
    {
      if expected != revision {
        return Failure(RevisionMismatch(expected, revision));
      }
      if !Has(races, raceId) {
        return Failure(NotFound(raceId));
      }
      if !storable || revision + 1 > I64_MAX {
        return Failure(Internal);
      }
      races := Without(races, raceId);
      revision := revision + 1;
      return Success(revision);
    }
  }

  /** Every end must be representable before anything else is looked at. */
  method ValidateCandidate(candidate: seq<Race>) returns (r: Check<AdminError>)
    ensures r.Pass? <==> GoodCalendar(candidate)
    ensures r == Fail(OutOfRange) <==> exists c | c in candidate :: !EndFits(c.info)
    ensures r.Fail? ==> r.reason.OutOfRange? || r.reason.Invalid?
  {
    var sorted := SortByStart(candidate);
    SortedValidationIsExact(candidate);
    SortIsAPermutationInOrder(candidate);
    MembersPermute(candidate, sorted);
    for i := 0 to |sorted|
      invariant forall k | 0 <= k < i :: EndsAt(sorted[k].info) <= I64_MAX
    {
      if EndsAt(sorted[i].info) > I64_MAX {
        assert sorted[i] in sorted;
        return Fail(OutOfRange);
      }
    }
    var check := ValidateSchedule(sorted);
    return if check.Pass? then Pass else Fail(Invalid(check.reason));
  }

  /** A creation goes through exactly when the calendar with the new race is a good one. */
  method CreateRaceConfig(repo: RaceConfigRepo, expected: nat, race: Race, storable: bool)
    returns (r: Result<nat, AdminError>)
    modifies repo
    ensures r.Success? <==>
            && storable && expected == old(repo.revision) < I64_MAX
            && GoodCalendar(old(repo.races) + [race])
    ensures repo.State() == if r.Success? then Store(expected + 1, old(repo.races) + [race])
                            else old(repo.State())
    ensures r.Success? ==> r.value == expected + 1
    ensures r.Failure? && r.error.RevisionMismatch? <==> expected != old(repo.revision)
  {
    if expected != repo.revision {
      return Failure(RevisionMismatch(expected, repo.revision));
    }
    var candidate := repo.races + [race];
    var check := ValidateCandidate(candidate);
    if check.Fail? {
      return Failure(check.reason);
    }
    NewIdIsNew(repo.races, race);
    r := repo.CreateConfig(expected, race, storable);
  }

  lemma {:induction false} NewIdIsNew(races: seq<Race>, race: Race)
    requires GoodCalendar(races + [race])
    ensures !Has(races, race.id)
  {
    var s := races + [race];
    forall x | x in races ensures x.id != race.id {
      var i :| 0 <= i < |races| && races[i] == x;
      assert Compatible(s[i], s[|races|]);
    }
  }

  /** An update goes through exactly when the race is there and the changed calendar is a good one. */
  method UpdateRaceConfig(repo: RaceConfigRepo, expected: nat, raceId: string, config: Config, storable: bool)
    returns (r: Result<nat, AdminError>)
    modifies repo
    ensures r.Success? <==>
            && !IsBlank(raceId) && storable && expected == old(repo.revision) < I64_MAX
            && Has(old(repo.races), raceId)
            && GoodCalendar(Upsert(old(repo.races), Entry(raceId, config)))
    ensures repo.State() ==
            if r.Success? then Store(expected + 1, Upsert(old(repo.races), Entry(raceId, config)))
            else old(repo.State())
    ensures r.Success? ==> r.value == expected + 1
    ensures r.Failure? && r.error.BlankRaceId? <==> IsBlank(raceId)
    ensures r.Failure? && r.error.RevisionMismatch? <==> !IsBlank(raceId) && expected != old(repo.revision)
    ensures r.Failure? && r.error.NotFound? <==>
            !IsBlank(raceId) && expected == old(repo.revision) && !Has(old(repo.races), raceId)
  {
    if IsBlank(raceId) {
      return Failure(BlankRaceId);
    }
    if expected != repo.revision {
      return Failure(RevisionMismatch(expected, repo.revision));
    }
    var candidate := repo.races;
    var found := IndexOf(candidate, raceId);
    if found.None? {
      return Failure(NotFound(raceId));
    }
    var race := Entry(raceId, config);
    UpsertAt(candidate, race, found.value);
    candidate := candidate[found.value := race];
    var check := ValidateCandidate(candidate);
    if check.Fail? {
      return Failure(check.reason);
    }
    r := repo.UpdateConfig(expected, race, storable);
  }

  /** A deletion goes through exactly when the race is there. */
  method DeleteRaceConfig(repo: RaceConfigRepo, expected: nat, raceId: string, storable: bool)
    returns (r: Result<nat, AdminError>)
    modifies repo
    ensures r.Success? <==>
            && !IsBlank(raceId) && storable && expected == old(repo.revision) < I64_MAX
            && Has(old(repo.races), raceId)
    ensures repo.State() == if r.Success? then Store(expected + 1, Without(old(repo.races), raceId))
                            else old(repo.State())
    ensures r.Success? ==> r.value == expected + 1
    ensures r.Failure? && r.error.BlankRaceId? <==> IsBlank(raceId)
    ensures r.Failure? && r.error.RevisionMismatch? <==> !IsBlank(raceId) && expected != old(repo.revision)
    ensures r.Failure? && r.error.NotFound? <==>
            !IsBlank(raceId) && expected == old(repo.revision) && !Has(old(repo.races), raceId)
    ensures r.Success? && GoodCalendar(old(repo.races)) ==> GoodCalendar(repo.races)
  {
    if IsBlank(raceId) {
      return Failure(BlankRaceId);
    }
    if expected != repo.revision {
      return Failure(RevisionMismatch(expected, repo.revision));
    }
    var found := IndexOf(repo.races, raceId);
    if found.None? {
      return Failure(NotFound(raceId));
    }
    if GoodCalendar(repo.races) {
      DeletionKeepsGood(repo.races, raceId);
    }
    r := repo.DeleteConfig(expected, raceId, storable);
  }
}
