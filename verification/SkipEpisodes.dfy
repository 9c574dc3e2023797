/** Skipping the first N signals of an account. The counter is reset when a signal comes more than 30
    minutes after the first signal that was skipped, not after 30 idle minutes. */
module SkipEpisodes {
  import opened Options

  type Time = int

  const HALF_HOUR := 1_800_000_000_000

  // seenSkip and skipStartTime of one account.
  datatype Counter = Counter(seen: int, start: Option<Time>)

  const IDLE := Counter(0, None)

  function Expire(c: Counter, now: Time): Counter {
    if c.start.Some? && now - c.start.value > HALF_HOUR then IDLE else c
  }

  function Passes(c: Counter, n: int, now: Time): bool { Expire(c, now).seen >= n }

  function Next(c: Counter, n: int, now: Time): Counter {
    var d := Expire(c, now);
    if d.seen >= n then d else Counter(d.seen + 1, if d.seen == 0 then Some(now) else d.start)
  }

  // The processor's two maps.
  datatype Maps = Maps(seenSkip: map<string, int>, skipStartTime: map<string, Time>)

  const EMPTY := Maps(map[], map[])

  function Of(m: Maps, id: string): Counter {
    Counter(if id in m.seenSkip then m.seenSkip[id] else 0,
            if id in m.skipStartTime then Some(m.skipStartTime[id]) else None)
  }

  function Expired(m: Maps, id: string, now: Time): Maps {
    if id in m.skipStartTime && now - m.skipStartTime[id] > HALF_HOUR
    then Maps(m.seenSkip[id := 0], m.skipStartTime - {id})
    else m
  }

  // The maps after one signal.
  function Step(m: Maps, id: string, n: int, now: Time): Maps {
    var d := Expired(m, id, now);
    var seen := if id in d.seenSkip then d.seenSkip[id] else 0;
    if seen >= n then d
    else Maps(d.seenSkip[id := seen + 1], if seen == 0 then d.skipStartTime[id := now] else d.skipStartTime)
  }

  class SkipCounters {
    var seenSkip: map<string, int>
    var skipStartTime: map<string, Time>

    function View(): Maps
      reads this
    {
      Maps(seenSkip, skipStartTime)
    }

    constructor ()
      ensures View() == EMPTY
    {
      seenSkip, skipStartTime := map[], map[];
    }

    method CheckSkip(id: string, skipSignals: int, now: Time) returns (pass: bool)
      modifies this
      ensures View() == Step(old(View()), id, skipSignals, now)
      ensures pass == Passes(Of(old(View()), id), skipSignals, now)
    {
      if id in skipStartTime && now - skipStartTime[id] > HALF_HOUR {
        seenSkip := seenSkip[id := 0];
        skipStartTime := skipStartTime - {id};
      }
      var seen := if id in seenSkip then seenSkip[id] else 0;
      if seen < skipSignals {
        if seen == 0 {
          skipStartTime := skipStartTime[id := now];
        }
        seenSkip := seenSkip[id := seen + 1];
        return false;
      }
      return true;
    }
  }

  /* ---- Histories ---- */

  // The counter after a history of signals of one account.
  function After(times: seq<Time>, n: int): Counter {
    if times == [] then IDLE else Next(After(times[..|times| - 1], n), n, times[|times| - 1])
  }

  datatype Signal = Signal(id: string, time: Time)

  // The signals of one account within those of all.
  function Own(signals: seq<Signal>, id: string): seq<Time> {
    if signals == [] then []
    else
      var last := signals[|signals| - 1];
      Own(signals[..|signals| - 1], id) + if last.id == id then [last.time] else []
  }

  // The maps after the signals of all accounts, each with its own limit.
  function MapsAfter(signals: seq<Signal>, limits: string -> int): Maps {
    if signals == [] then EMPTY
    else
      var last := signals[|signals| - 1];
      Step(MapsAfter(signals[..|signals| - 1], limits), last.id, limits(last.id), last.time)
  }

  // One signal moves the counter of its own account and no other.
  lemma StepMovesOne(m: Maps, id: string, n: int, now: Time, other: string)
    ensures Of(Step(m, id, n, now), other) == if other == id then Next(Of(m, id), n, now) else Of(m, other)
  {
  }

  // Whatever accounts share the maps, each one's counter is that of its own signals alone.
  lemma {:induction false} AccountsAreIndependent(signals: seq<Signal>, limits: string -> int, id: string)
    ensures Of(MapsAfter(signals, limits), id) == After(Own(signals, id), limits(id))
  {
    hide Step, Of, Next;
    if signals != [] {
      var last := signals[|signals| - 1];
      var before := Own(signals[..|signals| - 1], id);
      AccountsAreIndependent(signals[..|signals| - 1], limits, id);
      StepMovesOne(MapsAfter(signals[..|signals| - 1], limits), last.id, limits(last.id), last.time, id);
      if last.id == id {
        assert Own(signals, id)[..|before|] == before;
      } else {
        assert Own(signals, id) == before;
      }
    } else {
      NothingSeen(id);
    }
  }

  lemma NothingSeen(id: string)
    ensures Of(EMPTY, id) == IDLE
  {
  }

  /* ---- Episodes: the reference ---- */

  // The greedy split of a history: an episode ends at the first signal more than half an hour after
  // the episode's own first signal.
  function EpisodeStart(times: seq<Time>, k: nat): (e: nat)
    requires k < |times|
    ensures e <= k
  {
    if k == 0 then 0
    else
      var e := EpisodeStart(times, k - 1);
      if times[k] - times[e] > HALF_HOUR then k else e
  }

  lemma {:induction false} EpisodesAreGreedy(times: seq<Time>, k: nat)
    requires k < |times|
    ensures var e := EpisodeStart(times, k);
            && EpisodeStart(times, e) == e
            && (forall j | e <= j <= k :: EpisodeStart(times, j) == e && times[j] - times[e] <= HALF_HOUR)
            && (e > 0 ==> times[e] - times[EpisodeStart(times, e - 1)] > HALF_HOUR)
  {
    if k > 0 {
      EpisodesAreGreedy(times, k - 1);
    }
  }

  function Min(a: int, b: int): int { if a <= b then a else b }

  lemma {:induction false} EpisodeStartOfPrefix(times: seq<Time>, m: nat, k: nat)
    requires k < m <= |times|
    ensures EpisodeStart(times[..m], k) == EpisodeStart(times, k)
  {
    if k > 0 {
      EpisodeStartOfPrefix(times, m, k - 1);
    }
  }

  // The maps refine the split: after a signal the counter shows how many signals of its episode were
  // blocked and when the episode began, so seen never exceeds N and a start time exists iff seen > 0.
  lemma {:induction false} CounterTracksEpisode(times: seq<Time>, n: int)
    requires n > 0 && times != []
    ensures var k := |times| - 1; var e := EpisodeStart(times, k);
            After(times, n) == Counter(Min(n, k + 1 - e), Some(times[e]))
  {
    var k := |times| - 1;
    if k > 0 {
      CounterTracksEpisode(times[..k], n);
      EpisodeStartOfPrefix(times, k, k - 1);
    }
  }

  // Every signal is blocked if and only if it is one of the first N of its episode.
  lemma BlocksFirstOfEpisode(times: seq<Time>, n: int, k: nat)
    requires n > 0 && k < |times|
    ensures !Passes(After(times[..k], n), n, times[k]) <==> k - EpisodeStart(times, k) < n
  {
    if k > 0 {
      CounterTracksEpisode(times[..k], n);
      EpisodeStartOfPrefix(times, k, k - 1);
    }
  }

  // To the nanosecond: with N = 1 a second signal is blocked if and only if it comes more than
  // thirty minutes after the first.
  lemma SecondSignal(first: Time, second: Time)
    ensures !Passes(After([], 1), 1, first)
    ensures !Passes(After([first], 1), 1, second) <==> second - first > 30 * 60 * 1_000_000_000
  {
    var times := [first, second];
    assert times[..0] == [] && times[..1] == [first];
    BlocksFirstOfEpisode(times, 1, 0);
    BlocksFirstOfEpisode(times, 1, 1);
  }

  /* ---- The documented reading ---- */

  ghost predicate NonDecreasing(times: seq<Time>) {
    forall i, j | 0 <= i <= j < |times| :: times[i] <= times[j]
  }

  // The documented counter: reset by half an hour without a signal, so it remembers the last one.
  datatype Documented = Documented(seen: int, last: Option<Time>)

  function Rested(c: Documented, now: Time): int {
    if c.last.Some? && now - c.last.value > HALF_HOUR then 0 else c.seen
  }

  function DocumentedPasses(c: Documented, n: int, now: Time): bool { Rested(c, now) >= n }

  function DocumentedNext(c: Documented, n: int, now: Time): Documented {
    Documented(if Rested(c, now) >= n then Rested(c, now) else Rested(c, now) + 1, Some(now))
  }

  function DocumentedAfter(times: seq<Time>, n: int): Documented {
    if times == [] then Documented(0, None)
    else DocumentedNext(DocumentedAfter(times[..|times| - 1], n), n, times[|times| - 1])
  }

  // The first signal since the last half hour without one.
  function IdleStart(times: seq<Time>, k: nat): (e: nat)
    requires k < |times|
    ensures e <= k
  {
    if k == 0 || times[k] - times[k - 1] > HALF_HOUR then k else IdleStart(times, k - 1)
  }

  lemma {:induction false} IdleStartOfPrefix(times: seq<Time>, m: nat, k: nat)
    requires k < m <= |times|
    ensures IdleStart(times[..m], k) == IdleStart(times, k)
  {
    if k > 0 {
      IdleStartOfPrefix(times, m, k - 1);
    }
  }

  lemma {:induction false} DocumentedTracksIdle(times: seq<Time>, n: int)
    requires n > 0 && times != []
    ensures var k := |times| - 1;
            DocumentedAfter(times, n) == Documented(Min(n, k + 1 - IdleStart(times, k)), Some(times[k]))
  {
    var k := |times| - 1;
    if k > 0 {
      DocumentedTracksIdle(times[..k], n);
      IdleStartOfPrefix(times, k, k - 1);
    }
  }

  lemma DocumentedBlocks(times: seq<Time>, n: int, k: nat)
    requires n > 0 && k < |times|
    ensures !DocumentedPasses(DocumentedAfter(times[..k], n), n, times[k]) <==> k - IdleStart(times, k) < n
  {
    if k > 0 {
      DocumentedTracksIdle(times[..k], n);
      IdleStartOfPrefix(times, k, k - 1);
    }
  }

  // An idle half hour also ends the episode.
  lemma {:induction false} EpisodesAreShorter(times: seq<Time>, k: nat)
    requires NonDecreasing(times) && k < |times|
    ensures IdleStart(times, k) <= EpisodeStart(times, k)
  {
    if k > 0 {
      EpisodesAreShorter(times, k - 1);
    }
  }

  // Over any history: the code blocks every signal the documented rule blocks, and the two differ at
  // exactly those signals that are among the first N of their episode but not of the signals since
  // the last idle half hour.
  lemma VerdictsAgreeIff(times: seq<Time>, n: int, k: nat)
    requires n > 0 && NonDecreasing(times) && k < |times|
    ensures var code := Passes(After(times[..k], n), n, times[k]);
            var documented := DocumentedPasses(DocumentedAfter(times[..k], n), n, times[k]);
            && (code ==> documented)
            && (code == documented <==> !(k - EpisodeStart(times, k) < n <= k - IdleStart(times, k)))
  {
    BlocksFirstOfEpisode(times, n, k);
    DocumentedBlocks(times, n, k);
    EpisodesAreShorter(times, k);
  }

  // Signals every 20 minutes never leave an idle half hour, yet with N = 1 the third is blocked again.
  lemma BusyAccountIsBlockedAgain() returns (times: seq<Time>)
    ensures |times| == 3 && forall k | 0 < k < 3 :: times[k] - times[k - 1] < HALF_HOUR
    ensures !Passes(After(times[..0], 1), 1, times[0])
    ensures Passes(After(times[..1], 1), 1, times[1])
    ensures !Passes(After(times[..2], 1), 1, times[2])
    ensures DocumentedPasses(DocumentedAfter(times[..2], 1), 1, times[2])
  {
    times := [0, 1_200_000_000_000, 2_400_000_000_000];
    assert EpisodeStart(times, 0) == 0 && EpisodeStart(times, 1) == 0 && EpisodeStart(times, 2) == 2;
    assert IdleStart(times, 1) == 0 && IdleStart(times, 2) == 0;
    BlocksFirstOfEpisode(times, 1, 0);
    BlocksFirstOfEpisode(times, 1, 1);
    BlocksFirstOfEpisode(times, 1, 2);
    DocumentedBlocks(times, 1, 2);
  }
}
