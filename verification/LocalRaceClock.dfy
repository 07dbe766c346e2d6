/**
 The clock of a local race (local/local_race_state.rs): a race is stored with the times it was
 started with, and whoever looks at it moves it on to the phase that the time of looking demands.
 Beside it, the race's participants, who join only before it starts.
 */
module LocalRaceClock {
  import opened Prelude

  // ----- Timestamps -----

  datatype Timestamp = Timestamp(seconds: i64, nanos: int)

  function TimestampFromMs(ms: u64): Timestamp {
    Timestamp(if ms / 1000 <= I64_MAX then ms / 1000 else I64_MAX, ms % 1000 * 1_000_000)
  }

  function SaturatingMul(a: u64, b: nat): u64 {
    if a * b <= U64_MAX then a * b else U64_MAX
  }

  /** A timestamp before the epoch, or with negative nanoseconds, names no instant. */
  function TimestampMs(value: Option<Timestamp>): Option<u64> {
    if value.None? || value.value.seconds < 0 || value.value.nanos < 0 then None
    else Some(SaturatingAdd(SaturatingMul(value.value.seconds, 1000), value.value.nanos / 1_000_000))
  }

  /** Milliseconds survive the wire format over their whole range. */
  lemma {:induction false} MillisecondsRoundTrip(ms: u64)
    ensures TimestampMs(Some(TimestampFromMs(ms))) == Some(ms)
  {
    var seconds, rest := ms / 1000, ms % 1000;
    assert seconds * 1000 + rest == ms;
    assert rest * 1_000_000 / 1_000_000 == rest;
  }

  // ----- Phases -----

  datatype Phase = Unspecified | Staging | Countdown | Running | Finished | Aborted

  datatype Race = Race(
    raceId: string,
    durationSec: u32,
    maxParticipants: u32,
    phase: Phase,
    countdownEnd: Option<Timestamp>,
    runningStarted: Option<Timestamp>,
    plannedEnd: Option<Timestamp>,
    joinedCount: u32)

  predicate Due(at: Option<Timestamp>, now: u64) {
    TimestampMs(at).Some? && TimestampMs(at).value <= now
  }

  function EndAfter(started: u64, durationSec: u32): u64 {
    SaturatingAdd(started, durationSec * 1000)
  }

  function Normalize(race: Race, now: u64): Race {
    if race.phase == Countdown && Due(race.countdownEnd, now) then
      var runningStarted := if race.runningStarted.None? then race.countdownEnd else race.runningStarted;
      var started := if TimestampMs(runningStarted).Some? then TimestampMs(runningStarted).value else now;
      var plannedEnd :=
        if race.plannedEnd.None? then Some(TimestampFromMs(EndAfter(started, race.durationSec)))
        else race.plannedEnd;
      race.(phase := Running, runningStarted := runningStarted, plannedEnd := plannedEnd)
    else if race.phase == Running && Due(race.plannedEnd, now) then race.(phase := Finished)
    else race
  }

  function Rank(phase: Phase): nat {
    match phase
    case Unspecified => 0
    case Staging => 0
    case Countdown => 1
    case Running => 2
    case Finished => 3
    case Aborted => 3
  }

  /** Looking never moves a race back, never touches its identity, and settles after two looks. */
  lemma {:induction false} LookingTwiceIsEnough(race: Race, now: u64)
    ensures Rank(race.phase) <= Rank(Normalize(race, now).phase) <= Rank(race.phase) + 1
    ensures var twice := Normalize(Normalize(race, now), now); Normalize(twice, now) == twice
    ensures Normalize(race, now) != race ==> Normalize(race, now).phase != race.phase
    ensures race.phase != Countdown ==> Normalize(race, now) == race.(phase := Normalize(race, now).phase)
  {
  }

  /** A countdown whose end names no instant never ends. */
  lemma {:induction false} MalformedCountdownNeverEnds(race: Race, now: u64)
    requires race.phase == Countdown && TimestampMs(race.countdownEnd).None?
    ensures Normalize(race, now) == race
  {
  }

  /**
   A countdown that is over becomes a running race. Times that are already set stay; those that are not
   become the countdown's end, and the duration after the start.
   */
  lemma {:induction false} TimesAreSetOnce(race: Race, now: u64)
    requires race.phase == Countdown && TimestampMs(race.countdownEnd).Some?
    requires TimestampMs(race.countdownEnd).value <= now
    ensures var next := Normalize(race, now);
            && next.(phase := Countdown, runningStarted := None, plannedEnd := None) ==
               race.(runningStarted := None, plannedEnd := None)
            && next.phase == Running
            && next.runningStarted == (if race.runningStarted.Some? then race.runningStarted else race.countdownEnd)
            && (race.plannedEnd.Some? ==> next.plannedEnd == race.plannedEnd)
            && (race.plannedEnd.None? ==>
                  var start := TimestampMs(next.runningStarted);
                  var end := (if start.Some? then start.value else now) + 1000 * race.durationSec;
                  TimestampMs(next.plannedEnd) == Some(if end <= U64_MAX then end else U64_MAX))
  {
    var next := Normalize(race, now);
    var started := if TimestampMs(next.runningStarted).Some? then TimestampMs(next.runningStarted).value else now;
    MillisecondsRoundTrip(EndAfter(started, race.durationSec));
  }

  // ----- A countdown left to itself -----

  /** A race counting down to a well-formed instant, with nothing else decided. */
  predicate CountsDown(race: Race) {
    && race.phase == Countdown && TimestampMs(race.countdownEnd).Some?
    && race.runningStarted.None? && race.plannedEnd.None?
  }

  function StartMs(race: Race): u64
    requires CountsDown(race)
  {
    TimestampMs(race.countdownEnd).value
  }

  /** The duration in seconds after the start, as far as a `u64` of milliseconds goes. */
  function EndMs(race: Race): u64
    requires CountsDown(race)
  {
    var end := StartMs(race) + 1000 * race.durationSec;
    if end <= U64_MAX then end else U64_MAX
  }

  function InPhase(race: Race, phase: Phase): Race
    requires CountsDown(race)
  {
    if phase == Countdown then race
    else race.(phase := phase, runningStarted := race.countdownEnd, plannedEnd := Some(TimestampFromMs(EndMs(race))))
  }

  /** What the time alone makes of the race. */
  function Settled(race: Race, now: u64): Race
    requires CountsDown(race)
  {
    InPhase(race, if now < StartMs(race) then Countdown else if now < EndMs(race) then Running else Finished)
  }

  predicate NonDecreasing(times: seq<u64>) {
    forall i, j | 0 <= i < j < |times| :: times[i] <= times[j]
  }

  function PollAll(race: Race, times: seq<u64>): Race {
    if times == [] then race
    else Normalize(PollAll(race, times[..|times| - 1]), times[|times| - 1])
  }

  lemma {:induction false} NormalizeInPhase(race: Race, phase: Phase, now: u64)
    requires CountsDown(race) && (phase == Countdown || phase == Running || phase == Finished)
    ensures Normalize(InPhase(race, phase), now) ==
            InPhase(race, if phase == Countdown && StartMs(race) <= now then Running
                          else if phase == Running && EndMs(race) <= now then Finished
                          else phase)
  {
    MillisecondsRoundTrip(EndMs(race));
  }

  /** The phase that polling leaves: one poll starts the race, and only a later one can finish it. */
  function PolledPhase(race: Race, times: seq<u64>): Phase
    requires CountsDown(race)
  {
    if forall i | 0 <= i < |times| :: times[i] < StartMs(race) then Countdown
    else if times[|times| - 1] < EndMs(race) then Running
    else if |times| < 2 || times[|times| - 2] < StartMs(race) then Running
    else Finished
  }

  lemma {:induction false} PollingIsInPhase(race: Race, times: seq<u64>)
    requires CountsDown(race) && NonDecreasing(times)
    ensures PollAll(race, times) == InPhase(race, PolledPhase(race, times))
  {
    if times != [] {
      var front, now := times[..|times| - 1], times[|times| - 1];
      PollingIsInPhase(race, front);
      NormalizeInPhase(race, PolledPhase(race, front), now);
      assert forall i | 0 <= i < |front| :: front[i] == times[i] <= now;
      LastPollDecides(race, times);
    }
  }

  lemma {:induction false} LastPollDecides(race: Race, times: seq<u64>)
    requires CountsDown(race) && NonDecreasing(times) && times != []
    ensures var front, now := times[..|times| - 1], times[|times| - 1];
            var before := PolledPhase(race, front);
            PolledPhase(race, times) ==
            if before == Countdown && StartMs(race) <= now then Running
            else if before == Running && EndMs(race) <= now then Finished
            else before
  {
    var front, now := times[..|times| - 1], times[|times| - 1];
    assert StartMs(race) <= EndMs(race);
    if front != [] {
      assert front[|front| - 1] == times[|times| - 2];
      assert |front| > 1 ==> front[|front| - 2] == times[|times| - 3];
    }
  }

  /**
   Whoever has looked at the race, and whenever, looking twice now gives what the time alone
   demands; the times it carries are the countdown's end and that plus the duration, or none yet.
   */
  lemma {:induction false} ClockDoesNotDependOnPolling(race: Race, times: seq<u64>, now: u64)
    requires CountsDown(race) && NonDecreasing(times)
    requires times != [] ==> times[|times| - 1] <= now
    ensures Normalize(Normalize(PollAll(race, times), now), now) == Settled(race, now)
    ensures var seen := PollAll(race, times);
            seen == race || (seen.runningStarted == race.countdownEnd
                             && TimestampMs(seen.plannedEnd) == Some(EndMs(race)))
  {
    PollingIsInPhase(race, times);
    var phase := PolledPhase(race, times);
    NormalizeInPhase(race, phase, now);
    var next := Normalize(PollAll(race, times), now).phase;
    NormalizeInPhase(race, next, now);
    MillisecondsRoundTrip(EndMs(race));
    assert StartMs(race) <= EndMs(race);
    assert phase == Finished ==> EndMs(race) <= times[|times| - 1];
  }

  /**
   A single look lags behind the time exactly when the race is already over and nobody else has
   looked since it started.
   */
  lemma {:induction false} OneLookLagsOnlyAtTheEnd(race: Race, times: seq<u64>)
    requires CountsDown(race) && NonDecreasing(times) && times != []
    ensures var now := times[|times| - 1];
            PollAll(race, times) == Settled(race, now) <==>
            now < EndMs(race) || exists i | 0 <= i < |times| - 1 :: StartMs(race) <= times[i]
  {
    PollingIsInPhase(race, times);
    var now := times[|times| - 1];
    assert StartMs(race) <= EndMs(race);
    if |times| > 1 {
      assert forall i | 0 <= i < |times| - 1 :: times[i] <= times[|times| - 2];
    }
  }

  // ----- Starting -----

  /** What starting does to the record (services/local_race_admin.rs). */
  function Begun(race: Race, seconds: u32, now: u64): Race {
    var endMs := SaturatingAdd(now, seconds * 1000);
    var end := Some(TimestampFromMs(endMs));
    if seconds == 0 then
      race.(phase := Running, countdownEnd := end, runningStarted := end,
            plannedEnd := Some(TimestampFromMs(EndAfter(endMs, race.durationSec))))
    else race.(phase := Countdown, countdownEnd := end)
  }

  function Updated(race: Race, update: Race -> Race, before: u64, after: u64): Race {
    Normalize(update(Normalize(race, before)), after)
  }

  /** A race that has not been started has none of the times. */
  predicate Fresh(race: Race) {
    race.phase == Staging && race.countdownEnd.None? && race.runningStarted.None? && race.plannedEnd.None?
  }

  function Counting(race: Race, seconds: u32, now: u64): Race {
    race.(phase := Countdown, countdownEnd := Some(TimestampFromMs(SaturatingAdd(now, seconds * 1000))))
  }

  /**
   Starting without a countdown writes what a countdown that ends at once would have led to, so
   that either way the race obeys the same clock from then on.
   */
  lemma {:induction false} StartingSetsTheClock(race: Race, seconds: u32, now: u64, before: u64, after: u64)
    requires Fresh(race) && now <= before <= after
    ensures var counting := Counting(race, seconds, now);
            && CountsDown(counting) && StartMs(counting) == SaturatingAdd(now, seconds * 1000)
            && Updated(race, r => Begun(r, seconds, now), before, after) ==
               PollAll(counting, if seconds == 0 then [now, after] else [after])
  {
    var endMs, counting := SaturatingAdd(now, seconds * 1000), Counting(race, seconds, now);
    MillisecondsRoundTrip(endMs);
    assert Normalize(race, before) == race;
    if seconds == 0 {
      assert endMs == now;
      assert [now, after][..1] == [now] && [now][..0] == [];
      assert Begun(race, 0, now) == Normalize(counting, now) == PollAll(counting, [now]);
    } else {
      assert [after][..0] == [];
    }
  }

  lemma {:induction false} PollAllAdds(race: Race, a: seq<u64>, b: seq<u64>)
    ensures PollAll(race, a + b) == PollAll(PollAll(race, a), b)
    decreases |b|
  {
    if b == [] {
      assert a + b == a;
    } else {
      assert (a + b)[..|a + b| - 1] == a + b[..|b| - 1];
      PollAllAdds(race, a, b[..|b| - 1]);
    }
  }

  /** From the start on, the race is what the time makes of it, whoever looks at it and when. */
  lemma {:induction false} StartedRaceFollowsTheClock(
    race: Race, seconds: u32, now: u64, before: u64, after: u64, times: seq<u64>, later: u64)
    requires Fresh(race) && now <= before <= after <= later
    requires NonDecreasing(times) && forall i | 0 <= i < |times| :: after <= times[i] <= later
    ensures CountsDown(Counting(race, seconds, now))
    ensures var seen := PollAll(Updated(race, r => Begun(r, seconds, now), before, after), times);
            Normalize(Normalize(seen, later), later) == Settled(Counting(race, seconds, now), later)
  {
    StartingSetsTheClock(race, seconds, now, before, after);
    var counting := Counting(race, seconds, now);
    var first := if seconds == 0 then [now, after] else [after];
    PollAllAdds(counting, first, times);
    assert NonDecreasing(first + times);
    ClockDoesNotDependOnPolling(counting, first + times, later);
  }

  // ----- Participants -----

  datatype Participant = Participant(displayName: string, index: u32)

  datatype StateError = NoActiveRace | RaceMismatch | JoinClosed | ParticipantLimitReached

  datatype State = State(
    active: Option<Race>,
    participants: map<u64, Participant>,
    nextIndex: u32,
    softFreezeApplied: bool)

  const INITIAL_STATE := State(None, map[], 0, false)

  function Joined(participants: map<u64, Participant>): u32 {
    if |participants| <= U32_MAX then |participants| else U32_MAX
  }

  function Guarded(s: State, raceId: string): Check<StateError> {
    if s.active.None? then Fail(NoActiveRace)
    else if s.active.value.raceId != raceId then Fail(RaceMismatch)
    else Pass
  }

  function WithActive(s: State, race: Race): State {
    s.(active := Some(race))
  }

  function SetActive(race: Race, now: u64): State {
    State(Some(Normalize(race, now)), map[], 1, false)
  }

  function Update(s: State, raceId: string, update: Race -> Race, before: u64, after: u64): State {
    if Guarded(s, raceId).Fail? then s else WithActive(s, Updated(s.active.value, update, before, after))
  }

  function Clear(s: State, raceId: string): State {
    if Guarded(s, raceId).Fail? then s else State(None, map[], 1, false)
  }

  function NextIndex(s: State): u32 {
    if s.nextIndex < 1 then 1 else s.nextIndex
  }

  function Refusal(s: State, raceId: string, now: u64): Check<StateError> {
    var guard := Guarded(s, raceId);
    if guard.Fail? then guard
    else
      var race := Normalize(s.active.value, now);
      if race.phase != Staging then Fail(JoinClosed)
      else if race.maxParticipants > 0 && Joined(s.participants) >= race.maxParticipants then
        Fail(ParticipantLimitReached)
      else Pass
  }

  /** A refused registration may still have moved the race on. */
  function Register(s: State, raceId: string, carId: u64, displayName: string, now: u64): State {
    if Guarded(s, raceId).Fail? then s
    else
      var race := Normalize(s.active.value, now);
      if Refusal(s, raceId, now).Fail? then WithActive(s, race)
      else
        var participants := s.participants[carId := Participant(displayName, NextIndex(s))];
        State(Some(race.(joinedCount := Joined(participants))), participants,
              if NextIndex(s) < U32_MAX then NextIndex(s) + 1 else U32_MAX, s.softFreezeApplied)
  }

  function Remove(s: State, carId: u64): State {
    var participants := s.participants - {carId};
    State(if s.active.None? then None else Some(s.active.value.(joinedCount := Joined(participants))),
          participants, s.nextIndex, s.softFreezeApplied)
  }

  function Reconcile(s: State, now: u64): State {
    if s.active.None? || Normalize(s.active.value, now) == s.active.value then s
    else
      var race := Normalize(s.active.value, now);
      WithActive(s, race).(softFreezeApplied := race.phase != Finished && s.softFreezeApplied)
  }

  // ----- What becomes of the participants -----

  function AtMostU32(n: nat): u32 {
    if n <= 0xFFFF_FFFF then n else 0xFFFF_FFFF
  }

  /** Registration is open for the race that is named while it is staging and has room. */
  predicate IsOpen(s: State, raceId: string) {
    && s.active.Some? && s.active.value.raceId == raceId && s.active.value.phase == Staging
    && (s.active.value.maxParticipants == 0 || |s.participants| < s.active.value.maxParticipants)
  }

  /**
   An open registration puts the car on the list under its name, with the next index, which is then
   used up, and leaves everybody else alone. A refused one only looks at the race, and says why.
   */
  lemma {:induction false} RegistrationIsExact(s: State, raceId: string, carId: u64, displayName: string, now: u64)
    ensures var refusal, next := Refusal(s, raceId, now), Register(s, raceId, carId, displayName, now);
            && (refusal.Pass? <==> IsOpen(s, raceId))
            && (refusal.Pass? ==>
                  && next.participants.Keys == s.participants.Keys + {carId}
                  && next.participants[carId].displayName == displayName
                  && next.participants[carId].index == (if s.nextIndex == 0 then 1 else s.nextIndex)
                  && next.nextIndex == AtMostU32(next.participants[carId].index + 1)
                  && (forall c | c in s.participants && c != carId :: next.participants[c] == s.participants[c])
                  && next.active == Some(s.active.value.(joinedCount := AtMostU32(|next.participants|))))
            && (refusal.Fail? ==>
                  && next.participants == s.participants && next.nextIndex == s.nextIndex
                  && next.active == (if s.active.Some? && s.active.value.raceId == raceId
                                     then Some(Normalize(s.active.value, now)) else s.active))
            && next.softFreezeApplied == s.softFreezeApplied
  {
  }

  lemma {:induction false} RefusalsAreTrue(s: State, raceId: string, now: u64)
    requires Refusal(s, raceId, now).Fail?
    ensures match Refusal(s, raceId, now).reason
            case NoActiveRace => s.active.None?
            case RaceMismatch => s.active.Some? && s.active.value.raceId != raceId
            case JoinClosed => s.active.Some? && s.active.value.raceId == raceId && s.active.value.phase != Staging
            case ParticipantLimitReached =>
              s.active.Some? && 0 < s.active.value.maxParticipants <= |s.participants|
  {
  }

  /** A car that is removed is gone, whoever else is there stays, and its index is not given again. */
  lemma {:induction false} RemovalIsExact(s: State, carId: u64)
    ensures var next := Remove(s, carId);
            && next.participants.Keys == s.participants.Keys - {carId}
            && (forall c | c in next.participants :: next.participants[c] == s.participants[c])
            && next.nextIndex == s.nextIndex && next.softFreezeApplied == s.softFreezeApplied
            && (s.active.None? ==> next.active.None?)
            && (s.active.Some? ==>
                  next.active == Some(s.active.value.(joinedCount := AtMostU32(|next.participants|))))
  {
  }

  /** Clearing takes the race away with its participants if it is the one that is named. */
  lemma {:induction false} ClearingIsExact(s: State, raceId: string)
    ensures var next := Clear(s, raceId);
            if s.active.Some? && s.active.value.raceId == raceId then
              next.active.None? && |next.participants| == 0 && next.nextIndex == 1 && !next.softFreezeApplied
            else next == s
  {
  }

  /** A race that is set is brought up to date, and begins with nobody. */
  lemma {:induction false} SettingIsExact(race: Race, now: u64)
    ensures var next := SetActive(race, now);
            && next.active == Some(Normalize(race, now)) && |next.participants| == 0
            && next.nextIndex == 1 && !next.softFreezeApplied
  {
  }

  /** An update reaches the race that it names, as it is when looked at, and nobody's place. */
  lemma {:induction false} UpdatingIsExact(
    s: State, raceId: string, update: Race -> Race, before: u64, after: u64)
    ensures var next := Update(s, raceId, update, before, after);
            && next.(active := s.active) == s
            && (if s.active.Some? && s.active.value.raceId == raceId then
                  next.active == Some(Normalize(update(Normalize(s.active.value, before)), after))
                else next.active == s.active)
  {
  }

  /** Reconciling moves the race on to what a look makes of it, and drops the mark of a freeze when it finishes. */
  lemma {:induction false} ReconcilingIsExact(s: State, now: u64)
    ensures var next := Reconcile(s, now);
            && next.participants == s.participants && next.nextIndex == s.nextIndex
            && (s.active.None? ==> next == s)
            && (s.active.Some? ==>
                  && next.active == Some(Normalize(s.active.value, now))
                  && next.softFreezeApplied ==
                     (s.softFreezeApplied && !(next.active != s.active && next.active.value.phase == Finished)))
  {
  }

  class LocalRaceStateStore {
    var active: Option<Race>
    var participants: map<u64, Participant>
    var nextIndex: u32
    var softFreezeApplied: bool

    ghost function Contents(): State
      reads this
    {
      State(active, participants, nextIndex, softFreezeApplied)
    }

    constructor ()
      ensures Contents() == INITIAL_STATE
    {
      active, participants, nextIndex, softFreezeApplied := None, map[], 0, false;
    }

    method SetActiveRace(race: Race, now: u64)
      modifies this
      ensures Contents() == SetActive(race, now)
    {
      active := Some(Normalize(race, now));
      participants := map[];
      nextIndex := 1;
      softFreezeApplied := false;
    }

    method UpdateActiveRace(raceId: string, update: Race -> Race, before: u64, after: u64)
      returns (r: Result<Race, StateError>)
      modifies this
      ensures Contents() == Update(old(Contents()), raceId, update, before, after)
      ensures r.Failure? <==> Guarded(old(Contents()), raceId).Fail?
      ensures r.Success? ==> r.value == active.value.(joinedCount := Joined(participants))
    {
      if active.None? {
        return Failure(NoActiveRace);
      }
      if active.value.raceId != raceId {
        return Failure(RaceMismatch);
      }
      var race := Normalize(active.value, before);
      race := update(race);
      race := Normalize(race, after);
      active := Some(race);
      return Success(race.(joinedCount := Joined(participants)));
    }

    method ClearActiveRace(raceId: string) returns (r: Check<StateError>)
      modifies this
      ensures Contents() == Clear(old(Contents()), raceId)
      ensures r == Guarded(old(Contents()), raceId)
    {
      if active.None? {
        return Fail(NoActiveRace);
      }
      if active.value.raceId != raceId {
        return Fail(RaceMismatch);
      }
      active := None;
      participants := map[];
      nextIndex := 1;
      softFreezeApplied := false;
      return Pass;
    }

    /** Among participants whose indices are still below the counter, the new one's is the largest. */
    method RegisterParticipant(raceId: string, carId: u64, displayName: string, now: u64)
      returns (r: Result<Participant, StateError>)
      modifies this
      ensures Contents() == Register(old(Contents()), raceId, carId, displayName, now)
      ensures match Refusal(old(Contents()), raceId, now)
              case Fail(reason) => r == Failure(reason)
              case Pass => r.Success? && carId in participants && participants[carId] == r.value
      ensures r.Success? ==> forall c | c in old(participants) && old(participants)[c].index < old(nextIndex) ::
                               old(participants)[c].index < r.value.index
    {
      if active.None? {
        return Failure(NoActiveRace);
      }
      if active.value.raceId != raceId {
        return Failure(RaceMismatch);
      }
      active := Some(Normalize(active.value, now));
      if active.value.phase != Staging {
        return Failure(JoinClosed);
      }
      var maxParticipants := active.value.maxParticipants;
      var joined := Joined(participants);
      if maxParticipants > 0 && joined >= maxParticipants {
        return Failure(ParticipantLimitReached);
      }
      var index := if nextIndex < 1 then 1 else nextIndex;
      nextIndex := if index < U32_MAX then index + 1 else U32_MAX;
      var record := Participant(displayName, index);
      participants := participants[carId := record];
      active := Some(active.value.(joinedCount := Joined(participants)));
      return Success(record);
    }

    method RemoveParticipant(carId: u64)
      modifies this
      ensures Contents() == Remove(old(Contents()), carId)
    {
      participants := participants - {carId};
      if active.Some? {
        active := Some(active.value.(joinedCount := Joined(participants)));
      }
    }

    /** Reports a race exactly when looking at it has moved it on. */
    method ReconcileActiveRace(now: u64) returns (outcome: Option<(Race, Phase, Phase)>)
      modifies this
      ensures Contents() == Reconcile(old(Contents()), now)
      ensures outcome.Some? <==> active != old(active)
      ensures outcome.Some? ==>
                && old(active).Some? && active.Some?
                && outcome.value.0 == active.value.(joinedCount := Joined(participants))
                && outcome.value.1 == old(active).value.phase
                && outcome.value.2 == active.value.phase
                && Rank(outcome.value.2) == Rank(outcome.value.1) + 1
    {
      if active.None? {
        return None;
      }
      var previousPhase := active.value.phase;
      var normalized := Normalize(active.value, now);
      if active.value == normalized {
        return None;
      }
      var currentPhase := normalized.phase;
      active := Some(normalized);
      if currentPhase == Finished {
        softFreezeApplied := false;
      }
      return Some((normalized.(joinedCount := Joined(participants)), previousPhase, currentPhase));
    }
  }

  // ----- Every run of the store -----

  datatype Op =
    | OpSet(race: Race, now: u64)
    | OpStart(raceId: string, seconds: u32, now: u64, before: u64, after: u64)
    | OpAbort(raceId: string, before: u64, after: u64)
    | OpClear(raceId: string)
    | OpRegister(raceId: string, carId: u64, displayName: string, now: u64)
    | OpRemove(carId: u64)
    | OpReconcile(now: u64)
    | OpMarkFrozen(raceId: string)

  function Next(s: State, op: Op): State {
    match op
    case OpSet(race, now) => SetActive(race, now)
    case OpStart(raceId, seconds, now, before, after) =>
      Update(s, raceId, r => Begun(r, seconds, now), before, after)
    case OpAbort(raceId, before, after) =>
      Update(s, raceId, (r: Race) => r.(phase := Aborted), before, after)
    case OpClear(raceId) => Clear(s, raceId)
    case OpRegister(raceId, carId, displayName, now) => Register(s, raceId, carId, displayName, now)
    case OpRemove(carId) => Remove(s, carId)
    case OpReconcile(now) => Reconcile(s, now)
    case OpMarkFrozen(raceId) => if Guarded(s, raceId).Fail? then s else s.(softFreezeApplied := true)
  }

  function StateAfter(ops: seq<Op>): State {
    if ops == [] then INITIAL_STATE else Next(StateAfter(ops[..|ops| - 1]), ops[|ops| - 1])
  }

  /** Starting, aborting and marking do to the race that they name what they are called for. */
  lemma {:induction false} OperationsReachTheRace(s: State, raceId: string, seconds: u32, now: u64, before: u64, after: u64)
    requires s.active.Some? && s.active.value.raceId == raceId
    ensures var started := Next(s, OpStart(raceId, seconds, now, before, after));
            started.active == Some(Updated(s.active.value, r => Begun(r, seconds, now), before, after))
    ensures var aborted := Next(s, OpAbort(raceId, before, after));
            && aborted.active.Some? && aborted.active.value.phase == Aborted
            && (forall later: u64 :: Normalize(aborted.active.value, later) == aborted.active.value)
    ensures Next(s, OpMarkFrozen(raceId)) == s.(softFreezeApplied := true)
  {
  }

  ghost predicate IndicesAgree(participants: map<u64, Participant>, nextIndex: u32) {
    && (forall c | c in participants ::
          1 <= participants[c].index && (participants[c].index < nextIndex || nextIndex == U32_MAX))
    && (forall c, d | c in participants && d in participants && c != d ::
          participants[c].index != participants[d].index || participants[c].index == U32_MAX)
  }

  ghost predicate WithinLimit(s: State) {
    && (s.participants != map[] ==> s.active.Some?)
    && (s.active.Some? && s.active.value.maxParticipants > 0 ==> |s.participants| <= s.active.value.maxParticipants)
  }

  /** Indices are distinct until the counter saturates, and the race is never overfull. */
  ghost predicate Inv(s: State) {
    IndicesAgree(s.participants, s.nextIndex) && WithinLimit(s)
  }

  lemma {:induction false} RegisterKeepsIndices(
    participants: map<u64, Participant>, nextIndex: u32, carId: u64, p: Participant)
    requires IndicesAgree(participants, nextIndex) && p.index == if nextIndex < 1 then 1 else nextIndex
    ensures IndicesAgree(participants[carId := p], if p.index < U32_MAX then p.index + 1 else U32_MAX)
  {
  }

  lemma {:induction false} RegisterKeepsLimit(s: State, raceId: string, carId: u64, displayName: string, now: u64)
    requires WithinLimit(s)
    ensures WithinLimit(Register(s, raceId, carId, displayName, now))
  {
    if Refusal(s, raceId, now).Pass? {
      var race := Normalize(s.active.value, now);
      var participants := s.participants[carId := Participant(displayName, NextIndex(s))];
      assert participants.Keys == s.participants.Keys + {carId};
      assert |participants| <= |s.participants| + 1;
      assert race.maxParticipants == s.active.value.maxParticipants;
    }
  }

  lemma {:induction false} RegisterKeepsInv(s: State, raceId: string, carId: u64, displayName: string, now: u64)
    requires Inv(s)
    ensures Inv(Register(s, raceId, carId, displayName, now))
  {
    RegisterKeepsLimit(s, raceId, carId, displayName, now);
    if Refusal(s, raceId, now).Pass? {
      RegisterKeepsIndices(s.participants, s.nextIndex, carId, Participant(displayName, NextIndex(s)));
    }
  }

  lemma {:induction false} RemoveKeepsInv(s: State, carId: u64)
    requires Inv(s)
    ensures Inv(Remove(s, carId))
  {
    var rest := s.participants - {carId};
    assert rest.Keys == s.participants.Keys - {carId};
    assert |rest| <= |s.participants|;
  }

  /** Moving the race on, or updating it, leaves the participants and the limit alone. */
  lemma {:induction false} ActiveMayChange(s: State, race: Race, flag: bool)
    requires Inv(s) && s.active.Some? && race.maxParticipants == s.active.value.maxParticipants
    ensures Inv(WithActive(s, race).(softFreezeApplied := flag))
  {
  }

  lemma {:induction false} UpdateKeepsInv(s: State, raceId: string, update: Race -> Race, before: u64, after: u64)
    requires Inv(s) && forall r :: update(r).maxParticipants == r.maxParticipants
    ensures Inv(Update(s, raceId, update, before, after))
  {
    if Guarded(s, raceId).Pass? {
      var race := Normalize(s.active.value, before);
      assert update(race).maxParticipants == race.maxParticipants == s.active.value.maxParticipants;
      ActiveMayChange(s, Updated(s.active.value, update, before, after), s.softFreezeApplied);
    }
  }

  lemma {:induction false} StepKeepsInv(s: State, op: Op)
    requires Inv(s)
    ensures Inv(Next(s, op))
  {
    match op
    case OpSet(race, now) =>
    case OpStart(raceId, seconds, now, before, after) =>
      UpdateKeepsInv(s, raceId, r => Begun(r, seconds, now), before, after);
    case OpAbort(raceId, before, after) =>
      UpdateKeepsInv(s, raceId, (r: Race) => r.(phase := Aborted), before, after);
    case OpClear(raceId) =>
    case OpRegister(raceId, carId, displayName, now) => RegisterKeepsInv(s, raceId, carId, displayName, now);
    case OpRemove(carId) => RemoveKeepsInv(s, carId);
    case OpReconcile(now) =>
      if s.active.Some? {
        ActiveMayChange(s, Normalize(s.active.value, now), Reconcile(s, now).softFreezeApplied);
      }
    case OpMarkFrozen(raceId) =>
  }

  lemma {:induction false} RunKeepsInv(ops: seq<Op>)
    ensures Inv(StateAfter(ops))
  {
    if ops != [] {
      RunKeepsInv(ops[..|ops| - 1]);
      StepKeepsInv(StateAfter(ops[..|ops| - 1]), ops[|ops| - 1]);
    }
  }
}
