/**
 The in-process sliding-window rate limiter and the middleware gate in front of it
 (backend/app/core/middleware.py). Time is a number of clock ticks; one call of
 `Allow` is one atomic step, because the source's method never awaits.

 The limiter forgets stamps. The reference is a limiter that never forgets: it keeps
 every accepted stamp and counts those in (now - window, now].
 */
module RateLimiter {
  import opened Wrappers

  // datetime has microsecond resolution
  const TICKS_PER_SECOND := 1_000_000
  const WINDOW_SECONDS := 60

  type Hits = map<string, seq<int>>

  datatype Config = Config(maxHits: int, window: int)

  datatype Call = Call(key: string, now: int)

  // ---------- one call ----------

  // The list comprehension of `allow`: the stamps after the cutoff, in order.
  function Recent(stamps: seq<int>, cutoff: int): seq<int> {
    if stamps == [] then [] else
      var last := stamps[|stamps| - 1];
      Recent(stamps[..|stamps| - 1], cutoff) + if last > cutoff then [last] else []
  }

  // `self._hits` is a defaultdict(list).
  function Stamps(hits: Hits, key: string): seq<int> {
    if key in hits then hits[key] else []
  }

  predicate Admits(cfg: Config, hits: Hits, call: Call) {
    |Recent(Stamps(hits, call.key), call.now - cfg.window)| < cfg.maxHits
  }

  function After(cfg: Config, hits: Hits, call: Call): Hits {
    var recent := Recent(Stamps(hits, call.key), call.now - cfg.window);
    hits[call.key := if Admits(cfg, hits, call) then recent + [call.now] else recent]
  }

  class InProcessRateLimiter {
    const config: Config
    var hits: Hits

    constructor (config: Config)
      ensures this.config == config && hits == map[]
    {
      this.config := config;
      hits := map[];
    }

    method Allow(call: Call) returns (allowed: bool)
      modifies this`hits
      ensures allowed == Admits(config, old(hits), call)
      ensures hits == After(config, old(hits), call)
    {
      var cutoff := call.now - config.window;
      var recent := Recent(Stamps(hits, call.key), cutoff);
      if |recent| >= config.maxHits {
        hits := hits[call.key := recent];
        return false;
      }
      recent := recent + [call.now];
      hits := hits[call.key := recent];
      return true;
    }
  }

  // ---------- whole runs ----------

  function RunHits(cfg: Config, calls: seq<Call>): Hits {
    if calls == [] then map[] else
      After(cfg, RunHits(cfg, calls[..|calls| - 1]), calls[|calls| - 1])
  }

  // The stamps the limiter accepted for one key over a run.
  function Accepted(cfg: Config, calls: seq<Call>, key: string): seq<int> {
    if calls == [] then [] else
      var before, call := calls[..|calls| - 1], calls[|calls| - 1];
      Accepted(cfg, before, key) +
      if call.key == key && Admits(cfg, RunHits(cfg, before), call) then [call.now] else []
  }

  // How many stamps lie in [from, to).
  function CountIn(stamps: seq<int>, from: int, to: int): nat {
    if stamps == [] then 0 else
      var last := stamps[|stamps| - 1];
      CountIn(stamps[..|stamps| - 1], from, to) + if from <= last < to then 1 else 0
  }

  // The limiter that keeps every accepted stamp and counts those in (now - window, now].
  predicate FullAdmits(cfg: Config, history: seq<int>, now: int) {
    CountIn(history, now - cfg.window + 1, now + 1) < cfg.maxHits
  }

  function FullHistory(cfg: Config, calls: seq<Call>, key: string): seq<int> {
    if calls == [] then [] else
      var history, call := FullHistory(cfg, calls[..|calls| - 1], key), calls[|calls| - 1];
      if call.key == key && FullAdmits(cfg, history, call.now) then history + [call.now] else history
  }

  // The clock of each key does not run backwards. Nothing is asked across keys.
  ghost predicate ClockMonotone(calls: seq<Call>) {
    forall i, j :: 0 <= i < j < |calls| && calls[i].key == calls[j].key ==> calls[i].now <= calls[j].now
  }

  ghost predicate Sorted(s: seq<int>) {
    forall i, j :: 0 <= i < j < |s| ==> s[i] <= s[j]
  }

  ghost predicate UpTo(s: seq<int>, limit: int) {
    forall i :: 0 <= i < |s| ==> s[i] <= limit
  }

  ghost predicate CallsUpTo(calls: seq<Call>, key: string, limit: int) {
    forall i :: 0 <= i < |calls| && calls[i].key == key ==> calls[i].now <= limit
  }

  function Max(a: int, b: int): int { if a < b then b else a }

  // ---------- lemmas about lists of stamps ----------

  lemma {:induction false} RecentOfRecent(s: seq<int>, c1: int, c2: int)
    requires c1 <= c2
    ensures Recent(Recent(s, c1), c2) == Recent(s, c2)
  {
    if s != [] {
      var front, last := s[..|s| - 1], s[|s| - 1];
      RecentOfRecent(front, c1, c2);
      if last > c1 {
        RecentAppend(Recent(front, c1), last, c2);
      } else {
        assert Recent(s, c1) == Recent(front, c1);
      }
    }
  }

  lemma RecentAppend(s: seq<int>, x: int, cutoff: int)
    ensures Recent(s + [x], cutoff) == Recent(s, cutoff) + if x > cutoff then [x] else []
  {
    assert (s + [x])[..|s|] == s;
  }

  lemma {:induction false} RecentIsCount(s: seq<int>, cutoff: int, limit: int)
    requires UpTo(s, limit)
    ensures |Recent(s, cutoff)| == CountIn(s, cutoff + 1, limit + 1)
  {
    if s != [] {
      RecentIsCount(s[..|s| - 1], cutoff, limit);
    }
  }

  lemma {:induction false} RecentKeeps(s: seq<int>, cutoff: int, limit: int)
    requires Sorted(s) && UpTo(s, limit)
    ensures Sorted(Recent(s, cutoff)) && UpTo(Recent(s, cutoff), limit)
    ensures |Recent(s, cutoff)| <= |s|
  {
    if s != [] {
      RecentKeeps(s[..|s| - 1], cutoff, s[|s| - 1]);
    }
  }

  lemma {:induction false} CountInSplit(s: seq<int>, a: int, b: int, c: int)
    requires a <= b <= c
    ensures CountIn(s, a, c) == CountIn(s, a, b) + CountIn(s, b, c)
  {
    if s != [] {
      CountInSplit(s[..|s| - 1], a, b, c);
    }
  }

  lemma {:induction false} CountInBound(s: seq<int>, a: int, b: int, outside: nat)
    requires outside <= |s|
    requires forall i :: 0 <= i < outside ==> s[i] < a
    ensures CountIn(s, a, b) <= |s| - outside
  {
    if s != [] {
      var front := s[..|s| - 1];
      CountInBound(front, a, b, if outside < |s| then outside else |s| - 1);
    }
  }

  lemma MonotoneBefore(calls: seq<Call>, call: Call)
    requires ClockMonotone(calls + [call])
    ensures ClockMonotone(calls) && CallsUpTo(calls, call.key, call.now)
  {
    var all := calls + [call];
    assert all[|calls|] == call;
    assert forall i :: 0 <= i < |calls| ==> all[i] == calls[i];
  }

  // ---------- the limiter refines the full-history limiter ----------

  lemma {:induction false} HistorySorted(cfg: Config, calls: seq<Call>, key: string, limit: int)
    requires ClockMonotone(calls) && CallsUpTo(calls, key, limit)
    ensures Sorted(FullHistory(cfg, calls, key))
    ensures UpTo(FullHistory(cfg, calls, key), limit)
  {
    if calls != [] {
      var before, call := calls[..|calls| - 1], calls[|calls| - 1];
      assert before + [call] == calls;
      MonotoneBefore(before, call);
      HistorySorted(cfg, before, key, if call.key == key then call.now else limit);
    }
  }

  lemma PrunedStep(stored: seq<int>, history: seq<int>, added: seq<int>, cut: int, cutoff: int)
    requires cut <= cutoff && |added| <= 1
    requires Recent(stored, cutoff) == Recent(history, cutoff)
    ensures Recent(Recent(stored, cut) + added, cutoff) == Recent(history + added, cutoff)
  {
    hide Recent;
    var kept := Recent(stored, cut);
    RecentOfRecent(stored, cut, cutoff);
    if added == [] {
      assert kept + added == kept && history + added == history;
    } else {
      var x := added[0];
      assert added == [x];
      RecentAppend(kept, x, cutoff);
      RecentAppend(history, x, cutoff);
    }
  }

  lemma SameAnswer(cfg: Config, stored: seq<int>, history: seq<int>, now: int)
    requires Recent(stored, now - cfg.window) == Recent(history, now - cfg.window)
    requires UpTo(history, now)
    ensures |Recent(stored, now - cfg.window)| < cfg.maxHits <==> FullAdmits(cfg, history, now)
  {
    RecentIsCount(history, now - cfg.window, now);
  }

  // What the pruned list and the full history show after any cutoff that the calls so far have reached.
  lemma {:induction false} PrunedShowsHistory(cfg: Config, calls: seq<Call>, key: string, cutoff: int)
    requires ClockMonotone(calls) && CallsUpTo(calls, key, cutoff + cfg.window)
    ensures Recent(Stamps(RunHits(cfg, calls), key), cutoff) == Recent(FullHistory(cfg, calls, key), cutoff)
  {
    hide Recent, Stamps, Admits, FullAdmits, After;
    if calls == [] {
      EmptyHits(key);
    } else {
      var before, call := calls[..|calls| - 1], calls[|calls| - 1];
      assert before + [call] == calls;
      MonotoneBefore(before, call);
      var hits, history := RunHits(cfg, before), FullHistory(cfg, before, key);
      PrunedShowsHistory(cfg, before, key, cutoff);
      if call.key == key {
        PrunedShowsHistory(cfg, before, key, call.now - cfg.window);
        HistorySorted(cfg, before, key, call.now);
        PrunedCall(cfg, hits, history, call, cutoff);
      } else {
        AfterOthers(cfg, hits, call, key);
      }
    }
  }

  lemma EmptyHits(key: string)
    ensures Stamps(map[], key) == []
  {
  }

  lemma PrunedCall(cfg: Config, hits: Hits, history: seq<int>, call: Call, cutoff: int)
    requires var stored := Stamps(hits, call.key);
             && Recent(stored, call.now - cfg.window) == Recent(history, call.now - cfg.window)
             && Recent(stored, cutoff) == Recent(history, cutoff)
    requires UpTo(history, call.now) && call.now - cfg.window <= cutoff
    ensures Recent(Stamps(After(cfg, hits, call), call.key), cutoff) ==
            Recent(if FullAdmits(cfg, history, call.now) then history + [call.now] else history, cutoff)
  {
    hide Recent, Stamps, FullAdmits, After;
    var stored := Stamps(hits, call.key);
    SameAnswer(cfg, stored, history, call.now);
    var added := if Admits(cfg, hits, call) then [call.now] else [];
    AfterStamps(cfg, hits, call);
    PrunedStep(stored, history, added, call.now - cfg.window, cutoff);
    assert history + [] == history;
  }

  lemma AfterStamps(cfg: Config, hits: Hits, call: Call)
    ensures Stamps(After(cfg, hits, call), call.key) ==
            Recent(Stamps(hits, call.key), call.now - cfg.window) +
            if Admits(cfg, hits, call) then [call.now] else []
  {
    hide Recent, Admits;
  }

  lemma AfterOthers(cfg: Config, hits: Hits, call: Call, other: string)
    requires other != call.key
    ensures Stamps(After(cfg, hits, call), other) == Stamps(hits, other)
  {
    hide Recent, Admits;
  }

  // The answer to the next call of any run is the full-history answer.
  lemma AdmitsAsFullHistory(cfg: Config, calls: seq<Call>, call: Call)
    requires ClockMonotone(calls + [call])
    ensures Admits(cfg, RunHits(cfg, calls), call) == FullAdmits(cfg, FullHistory(cfg, calls, call.key), call.now)
  {
    hide Recent, Stamps, FullAdmits, RunHits, FullHistory, ClockMonotone;
    MonotoneBefore(calls, call);
    PrunedShowsHistory(cfg, calls, call.key, call.now - cfg.window);
    HistorySorted(cfg, calls, call.key, call.now);
    SameAnswer(cfg, Stamps(RunHits(cfg, calls), call.key), FullHistory(cfg, calls, call.key), call.now);
  }

  // Both limiters answer every call of a run alike.
  ghost predicate Agree(cfg: Config, calls: seq<Call>) {
    forall n :: 0 <= n < |calls| ==>
      Admits(cfg, RunHits(cfg, calls[..n]), calls[n]) ==
      FullAdmits(cfg, FullHistory(cfg, calls[..n], calls[n].key), calls[n].now)
  }

  predicate Sensible(cfg: Config) {
    cfg.maxHits >= 1 && cfg.window >= 1
  }

  lemma MonotoneAgrees(cfg: Config, calls: seq<Call>)
    requires ClockMonotone(calls)
    ensures Agree(cfg, calls)
  {
    forall n | 0 <= n < |calls|
      ensures Admits(cfg, RunHits(cfg, calls[..n]), calls[n]) ==
              FullAdmits(cfg, FullHistory(cfg, calls[..n], calls[n].key), calls[n].now)
    {
      assert ClockMonotone(calls[..n] + [calls[n]]);
      AdmitsAsFullHistory(cfg, calls[..n], calls[n]);
    }
  }

  // The times at which a key called.
  function TimesOf(calls: seq<Call>, key: string): seq<int> {
    if calls == [] then [] else
      var last := calls[|calls| - 1];
      TimesOf(calls[..|calls| - 1], key) + if last.key == key then [last.now] else []
  }

  ghost predicate Between(s: seq<int>, low: int, high: int) {
    forall i :: 0 <= i < |s| ==> low <= s[i] <= high
  }

  lemma {:induction false} TimesShow(calls: seq<Call>, i: nat)
    requires i < |calls|
    ensures calls[i].now in TimesOf(calls, calls[i].key)
  {
    if i < |calls| - 1 {
      TimesShow(calls[..|calls| - 1], i);
    }
  }

  lemma {:induction false} Bounds(s: seq<int>) returns (low: int, high: int)
    ensures low <= high && Between(s, low, high)
  {
    if s == [] {
      low, high := 0, 0;
    } else {
      low, high := Bounds(s[..|s| - 1]);
      var last := s[|s| - 1];
      low, high := if last < low then last else low, if last > high then last else high;
    }
  }

  lemma {:induction false} RecentKeepsAll(s: seq<int>, cutoff: int)
    requires forall i :: 0 <= i < |s| ==> s[i] > cutoff
    ensures Recent(s, cutoff) == s
  {
    if s != [] {
      RecentKeepsAll(s[..|s| - 1], cutoff);
    }
  }

  lemma {:induction false} CountInAtMost(s: seq<int>, from: int, to: int)
    ensures CountIn(s, from, to) <= |s|
    ensures (exists i :: 0 <= i < |s| && s[i] >= to) ==> CountIn(s, from, to) < |s|
  {
    if s != [] {
      CountInAtMost(s[..|s| - 1], from, to);
    }
  }

  // With room for all calls of a key and a window longer than their span, both limiters keep them all.
  lemma {:induction false} AllKept(cfg: Config, calls: seq<Call>, key: string, low: int, high: int)
    requires |TimesOf(calls, key)| <= cfg.maxHits
    requires Between(TimesOf(calls, key), low, high) && high - low < cfg.window
    ensures Stamps(RunHits(cfg, calls), key) == TimesOf(calls, key)
    ensures FullHistory(cfg, calls, key) == TimesOf(calls, key)
  {
    hide Recent, Stamps, Admits, After, CountIn, Between;
    if calls == [] {
      EmptyHits(key);
    } else {
      var before, call := calls[..|calls| - 1], calls[|calls| - 1];
      var times := TimesOf(before, key);
      BetweenFront(times, TimesOf(calls, key)[|times|..], low, high);
      AllKept(cfg, before, key, low, high);
      if call.key == key {
        BetweenMeans(TimesOf(calls, key), low, high, |times|);
        KeptToo(cfg, RunHits(cfg, before), call, low, high);
        CountInAtMost(times, call.now - cfg.window + 1, call.now + 1);
      } else {
        AfterOthers(cfg, RunHits(cfg, before), call, key);
      }
    }
  }

  lemma BetweenFront(s: seq<int>, more: seq<int>, low: int, high: int)
    ensures Between(s + more, low, high) ==> Between(s, low, high)
  {
    assert forall i :: 0 <= i < |s| ==> (s + more)[i] == s[i];
  }

  lemma BetweenMeans(s: seq<int>, low: int, high: int, i: nat)
    requires Between(s, low, high) && i < |s|
    ensures low <= s[i] <= high
  {
  }

  lemma KeptToo(cfg: Config, hits: Hits, call: Call, low: int, high: int)
    requires var stored := Stamps(hits, call.key); Between(stored, low, high) && |stored| < cfg.maxHits
    requires call.now <= high && high - low < cfg.window
    ensures Stamps(After(cfg, hits, call), call.key) == Stamps(hits, call.key) + [call.now]
  {
    hide Recent, Stamps, After;
    RecentKeepsAll(Stamps(hits, call.key), call.now - cfg.window);
    AfterStamps(cfg, hits, call);
  }

  // A step back of a key's clock tells the limiters apart: with room for exactly its earlier calls and a
  // window longer than their span, the pruned list counts a stamp from the future.
  lemma StepBackDisagrees(calls: seq<Call>, i: nat, j: nat) returns (cfg: Config)
    requires i < j < |calls| && calls[i].key == calls[j].key && calls[i].now > calls[j].now
    ensures Sensible(cfg) && !Agree(cfg, calls)
  {
    hide TimesOf, Admits, FullAdmits, RunHits, FullHistory, Between;
    var before, call := calls[..j], calls[j];
    var times := TimesOf(before, call.key);
    TimesShow(before, i);
    var low, high := Bounds(times);
    cfg := Config(|times|, high - low + 1);
    AllKept(cfg, before, call.key, low, high);
    TellsApart(cfg, RunHits(cfg, before), call, times, low, high);
  }

  lemma TellsApart(cfg: Config, hits: Hits, call: Call, times: seq<int>, low: int, high: int)
    requires Stamps(hits, call.key) == times && Between(times, low, high)
    requires cfg == Config(|times|, high - low + 1)
    requires exists k :: 0 <= k < |times| && times[k] > call.now
    ensures !Admits(cfg, hits, call) && FullAdmits(cfg, times, call.now)
  {
    hide Recent, Stamps, CountIn;
    RecentKeepsAll(times, call.now - cfg.window);
    CountInAtMost(times, call.now - cfg.window + 1, call.now + 1);
  }

  // The limiter that forgets answers as the one that does not, whatever its configuration, exactly when the
  // clock of no key runs backwards.
  lemma AgreesExactlyWhenMonotone(calls: seq<Call>)
    ensures (forall cfg :: Sensible(cfg) ==> Agree(cfg, calls)) <==> ClockMonotone(calls)
  {
    hide Agree, Sensible;
    if ClockMonotone(calls) {
      forall cfg | Sensible(cfg) ensures Agree(cfg, calls) {
        MonotoneAgrees(cfg, calls);
      }
    } else {
      var i, j :| 0 <= i < j < |calls| && calls[i].key == calls[j].key && calls[i].now > calls[j].now;
      var cfg := StepBackDisagrees(calls, i, j);
    }
  }

  // The smallest such run.
  lemma ClockStepBackChangesAnswer()
    ensures var cfg, first, back := Config(1, 10), Call("k", 120), Call("k", 100);
            && !ClockMonotone([first, back])
            && !Admits(cfg, RunHits(cfg, [first]), back)
            && FullAdmits(cfg, FullHistory(cfg, [first], "k"), back.now)
  {
    var cfg, first, back := Config(1, 10), Call("k", 120), Call("k", 100);
    assert [first, back][0].now > [first, back][1].now;
    assert [first][..0] == [];
    assert [120][..0] == [];
    assert FullHistory(cfg, [first], "k") == [120];
    assert RunHits(cfg, [first]) == map["k" := [120]];
    assert Recent([120], 90) == [120];
  }

  // Hence the limiter accepts exactly the stamps the full-history limiter accepts.
  lemma {:induction false} AcceptedIsFullHistory(cfg: Config, calls: seq<Call>, key: string)
    requires ClockMonotone(calls)
    ensures Accepted(cfg, calls, key) == FullHistory(cfg, calls, key)
  {
    hide Admits, FullAdmits, RunHits, ClockMonotone;
    if calls != [] {
      var before, call := calls[..|calls| - 1], calls[|calls| - 1];
      assert before + [call] == calls;
      MonotoneBefore(before, call);
      AcceptedIsFullHistory(cfg, before, key);
      AdmitsAsFullHistory(cfg, before, call);
    }
  }

  // A call is refused exactly when maxHits acceptances of its key lie in (now - window, now].
  lemma RefusedExactlyWhenFull(cfg: Config, calls: seq<Call>, call: Call)
    requires ClockMonotone(calls + [call])
    ensures !Admits(cfg, RunHits(cfg, calls), call) <==>
            CountIn(Accepted(cfg, calls, call.key), call.now - cfg.window + 1, call.now + 1) >= cfg.maxHits
  {
    hide Recent, Admits, RunHits, FullHistory, Accepted, CountIn, ClockMonotone;
    MonotoneBefore(calls, call);
    AcceptedIsFullHistory(cfg, calls, call.key);
    AdmitsAsFullHistory(cfg, calls, call);
  }

  // A refused call leaves no trace: every later answer, to any key, is as if it had never been made.
  lemma RefusedCallCostsNothing(cfg: Config, calls: seq<Call>, refused: Call, later: Call)
    requires ClockMonotone(calls + [refused, later])
    requires !Admits(cfg, RunHits(cfg, calls), refused)
    ensures Admits(cfg, RunHits(cfg, calls + [refused]), later) == Admits(cfg, RunHits(cfg, calls), later)
  {
    var all := calls + [refused, later];
    assert forall i :: 0 <= i < |calls| ==> all[i] == calls[i];
    assert all[|calls|] == refused && all[|calls| + 1] == later;
    assert all == (calls + [refused]) + [later];
    assert forall i :: 0 <= i < |calls| ==> (calls + [refused])[i] == all[i] && (calls + [later])[i] == all[i];
    AdmitsAsFullHistory(cfg, calls + [refused], later);
    AdmitsAsFullHistory(cfg, calls, later);
    AdmitsAsFullHistory(cfg, calls, refused);
    assert (calls + [refused])[..|calls|] == calls;
  }

  // Stored lists stay sorted and hold at most maxHits stamps, none later than the key's last call.
  lemma {:induction false} StoredListsStaySmall(cfg: Config, calls: seq<Call>, key: string, limit: int)
    requires ClockMonotone(calls) && CallsUpTo(calls, key, limit)
    ensures Small(cfg, Stamps(RunHits(cfg, calls), key), limit)
  {
    hide Recent, Stamps, Admits, After, Small, ClockMonotone;
    if calls == [] {
      EmptyHits(key);
      SmallEmpty(cfg, limit);
    } else {
      var before, call := calls[..|calls| - 1], calls[|calls| - 1];
      assert calls == before + [call];
      MonotoneBefore(before, call);
      StoredListsStaySmall(cfg, before, key, if call.key == key then call.now else limit);
      if call.key == key {
        assert call.now <= limit;
        SmallStep(cfg, RunHits(cfg, before), call, limit);
      } else {
        AfterOthers(cfg, RunHits(cfg, before), call, key);
      }
    }
  }

  ghost predicate Small(cfg: Config, stored: seq<int>, limit: int) {
    Sorted(stored) && UpTo(stored, limit) && |stored| <= (if cfg.maxHits < 0 then 0 else cfg.maxHits)
  }

  lemma SmallEmpty(cfg: Config, limit: int)
    ensures Small(cfg, [], limit)
  {
  }

  lemma SmallStep(cfg: Config, hits: Hits, call: Call, limit: int)
    requires Small(cfg, Stamps(hits, call.key), call.now) && call.now <= limit
    ensures Small(cfg, Stamps(After(cfg, hits, call), call.key), limit)
  {
    hide Recent, Stamps, After;
    RecentKeeps(Stamps(hits, call.key), call.now - cfg.window, call.now);
    AfterStamps(cfg, hits, call);
  }

  // A call changes the stored list of its own key and of no other.
  lemma OtherKeysUntouched(cfg: Config, calls: seq<Call>, call: Call, other: string)
    requires other != call.key
    ensures Stamps(RunHits(cfg, calls + [call]), other) == Stamps(RunHits(cfg, calls), other)
    ensures Accepted(cfg, calls + [call], other) == Accepted(cfg, calls, other)
  {
    assert (calls + [call])[..|calls|] == calls;
  }

  // ---------- bounds over whole runs ----------

  // Any acceptance comes at least one window after the acceptance maxHits places before it.
  ghost predicate Spaced(cfg: Config, s: seq<int>) {
    forall i, j :: 0 <= i < |s| && 0 <= j < |s| && j == i + cfg.maxHits ==> s[j] >= s[i] + cfg.window
  }

  lemma {:induction false} AcceptedSpaced(cfg: Config, calls: seq<Call>, key: string)
    requires cfg.maxHits >= 1
    requires ClockMonotone(calls)
    ensures Spaced(cfg, Accepted(cfg, calls, key))
  {
    hide Admits, RunHits, Spaced, CountIn, FullHistory, ClockMonotone;
    if calls == [] {
      SpacedShort(cfg, []);
    } else {
      var before, call := calls[..|calls| - 1], calls[|calls| - 1];
      assert calls == before + [call];
      MonotoneBefore(before, call);
      AcceptedSpaced(cfg, before, key);
      var s := Accepted(cfg, before, key);
      if call.key == key && Admits(cfg, RunHits(cfg, before), call) {
        RefusedExactlyWhenFull(cfg, before, call);
        AcceptedIsFullHistory(cfg, before, key);
        HistorySorted(cfg, before, key, call.now);
        SpacedAppend(cfg, s, call.now);
      } else {
        assert s + [] == s;
      }
    }
  }

  lemma SpacedShort(cfg: Config, s: seq<int>)
    requires |s| <= cfg.maxHits
    ensures Spaced(cfg, s)
  {
  }

  lemma SpacedAppend(cfg: Config, s: seq<int>, now: int)
    requires cfg.maxHits >= 1 && Spaced(cfg, s) && Sorted(s) && UpTo(s, now)
    requires CountIn(s, now - cfg.window + 1, now + 1) < cfg.maxHits
    ensures Spaced(cfg, s + [now])
  {
    hide CountIn;
    var i := |s| - cfg.maxHits;
    if i >= 0 && s[i] + cfg.window > now {
      SuffixAllCounted(s, i, now - cfg.window + 1, now + 1);
    }
  }

  lemma {:induction false} SuffixAllCounted(s: seq<int>, i: nat, from: int, to: int)
    requires Sorted(s) && i < |s| && from <= s[i] && s[|s| - 1] < to
    ensures CountIn(s, from, to) >= |s| - i
  {
    if i < |s| - 1 {
      SuffixAllCounted(s[..|s| - 1], i, from, to);
    }
  }

  lemma {:induction false} OneWindowBound(cfg: Config, s: seq<int>, a: int)
    requires cfg.maxHits >= 1
    requires Sorted(s) && Spaced(cfg, s)
    ensures CountIn(s, a, a + cfg.window) <= cfg.maxHits
  {
    if s != [] {
      var front, last := s[..|s| - 1], s[|s| - 1];
      if a <= last < a + cfg.window {
        var outside := if |s| > cfg.maxHits then |s| - cfg.maxHits else 0;
        if outside > 0 {
          assert s[|s| - 1] >= s[outside - 1] + cfg.window;
        }
        CountInBound(s, a, a + cfg.window, outside);
      } else {
        OneWindowBound(cfg, front, a);
      }
    }
  }

  lemma {:induction false} WindowsBound(cfg: Config, s: seq<int>, a: int, windows: nat)
    requires cfg.maxHits >= 1 && cfg.window >= 1
    requires Sorted(s) && Spaced(cfg, s)
    ensures CountIn(s, a, a + windows * cfg.window) <= cfg.maxHits * windows
    decreases windows
  {
    if windows == 0 {
      CountInEmpty(s, a, a);
    } else {
      var rest := (windows - 1) * cfg.window;
      assert windows * cfg.window == rest + cfg.window;
      assert rest >= 0;
      OneWindowBound(cfg, s, a + rest);
      WindowsBound(cfg, s, a, windows - 1);
      CountInSplit(s, a, a + rest, a + rest + cfg.window);
      assert cfg.maxHits * windows == cfg.maxHits * (windows - 1) + cfg.maxHits;
    }
  }

  lemma {:induction false} CountInEmpty(s: seq<int>, a: int, b: int)
    requires b <= a
    ensures CountIn(s, a, b) == 0
  {
    if s != [] {
      CountInEmpty(s[..|s| - 1], a, b);
    }
  }

  // Any interval [from, from + length) of any run holds at most maxHits * ceil(length / window) acceptances.
  lemma AcceptedInAnyInterval(cfg: Config, calls: seq<Call>, key: string, from: int, length: int)
    requires cfg.maxHits >= 1 && cfg.window >= 1 && length > 0
    requires ClockMonotone(calls)
    ensures CountIn(Accepted(cfg, calls, key), from, from + length) <=
            cfg.maxHits * ((length + cfg.window - 1) / cfg.window)
  {
    hide Accepted, FullHistory, CountIn, Sorted, Spaced, ClockMonotone, LatestOf;
    var s := Accepted(cfg, calls, key);
    AcceptedIsFullHistory(cfg, calls, key);
    AllCallsUpTo(calls, key);
    AcceptedSpaced(cfg, calls, key);
    HistorySorted(cfg, calls, key, LatestOf(calls));
    var windows := (length + cfg.window - 1) / cfg.window;
    CeilCovers(length, cfg.window);
    var covered := windows * cfg.window;
    WindowsBound(cfg, s, from, windows);
    CountInSplit(s, from, from + length, from + covered);
  }

  lemma CeilCovers(a: int, b: int)
    requires a >= 0 && b > 0
    ensures (a + b - 1) / b >= 0 && (a + b - 1) / b * b >= a
  {
    var k := (a + b - 1) / b;
    assert a + b - 1 == k * b + (a + b - 1) % b;
  }

  function LatestOf(calls: seq<Call>): int {
    if calls == [] then 0 else Max(LatestOf(calls[..|calls| - 1]), calls[|calls| - 1].now)
  }

  lemma {:induction false} AllCallsUpTo(calls: seq<Call>, key: string)
    ensures CallsUpTo(calls, key, LatestOf(calls))
  {
    if calls != [] {
      AllCallsUpTo(calls[..|calls| - 1], key);
    }
  }

  // ---------- the middleware gate ----------

  datatype Request = Request(scopeType: string, path: Option<string>, client: Option<string>, now: int)

  datatype Reply = Forwarded | TooManyRequests

  function MiddlewareConfig(perMinute: int): Config {
    Config(Max(1, perMinute), WINDOW_SECONDS * TICKS_PER_SECOND)
  }

  predicate Gated(enabled: bool, request: Request) {
    && request.scopeType == "http"
    && enabled
    && (request.path.None? || request.path.value !in {"/health", "/ready"})
  }

  function Host(request: Request): string {
    if request.client.Some? then request.client.value else "unknown"
  }

  function ToCall(request: Request): Call {
    Call(Host(request), request.now)
  }

  class RateLimitMiddleware {
    const enabled: bool
    const perMinute: int
    const limiter: InProcessRateLimiter

    ghost predicate Valid() {
      && limiter.config.maxHits == (if perMinute < 1 then 1 else perMinute)
      && limiter.config.window == 60_000_000
    }

    constructor (enabled: bool, perMinute: int)
      ensures Valid() && fresh(limiter) && limiter.hits == map[]
      ensures this.enabled == enabled && this.perMinute == perMinute
    {
      this.enabled := enabled;
      this.perMinute := perMinute;
      limiter := new InProcessRateLimiter(MiddlewareConfig(perMinute));
    }

    method Handle(request: Request) returns (reply: Reply)
      requires Valid()
      modifies limiter`hits
      ensures reply == HandleReply(enabled, perMinute, old(limiter.hits), request)
      ensures limiter.hits == HandleHits(enabled, perMinute, old(limiter.hits), request)
      // spelled out: what passes by, and whose quota everything else counts against
      ensures request.scopeType != "http" || !enabled || request.path in {Some("/health"), Some("/ready")} ==>
                reply == Forwarded && limiter.hits == old(limiter.hits)
      ensures request.scopeType == "http" && enabled && request.path !in {Some("/health"), Some("/ready")} ==>
                var name := if request.client.Some? then request.client.value else "unknown";
                && (reply == Forwarded <==> Admits(limiter.config, old(limiter.hits), Call(name, request.now)))
                && limiter.hits == After(limiter.config, old(limiter.hits), Call(name, request.now))
                && forall key :: key != name ==> Stamps(limiter.hits, key) == Stamps(old(limiter.hits), key)
    {
      if request.scopeType != "http" || !enabled {
        return Forwarded;
      }
      var path := if request.path.Some? then request.path.value else "";
      if path in {"/health", "/ready"} {
        return Forwarded;
      }
      var allowed := limiter.Allow(Call(Host(request), request.now));
      return if allowed then Forwarded else TooManyRequests;
    }
  }

  function HandleReply(enabled: bool, perMinute: int, hits: Hits, request: Request): Reply {
    if Gated(enabled, request) && !Admits(MiddlewareConfig(perMinute), hits, ToCall(request))
    then TooManyRequests else Forwarded
  }

  function HandleHits(enabled: bool, perMinute: int, hits: Hits, request: Request): Hits {
    if Gated(enabled, request) then After(MiddlewareConfig(perMinute), hits, ToCall(request)) else hits
  }

  function MiddlewareHits(enabled: bool, perMinute: int, requests: seq<Request>): Hits {
    if requests == [] then map[] else
      var before := requests[..|requests| - 1];
      HandleHits(enabled, perMinute, MiddlewareHits(enabled, perMinute, before), requests[|requests| - 1])
  }

  // When the gated requests of one host were let through.
  function ForwardedStamps(enabled: bool, perMinute: int, requests: seq<Request>, host: string): seq<int> {
    if requests == [] then [] else
      var before, request := requests[..|requests| - 1], requests[|requests| - 1];
      ForwardedStamps(enabled, perMinute, before, host) +
      if Gated(enabled, request) && Host(request) == host &&
         HandleReply(enabled, perMinute, MiddlewareHits(enabled, perMinute, before), request) == Forwarded
      then [request.now] else []
  }

  function GatedCalls(enabled: bool, requests: seq<Request>): seq<Call> {
    if requests == [] then [] else
      var request := requests[|requests| - 1];
      GatedCalls(enabled, requests[..|requests| - 1]) + if Gated(enabled, request) then [ToCall(request)] else []
  }

  // Exempt requests are invisible to the limiter: a run of the middleware is a run of the limiter
  // over the gated requests alone.
  lemma {:induction false} MiddlewareRunsLimiter(enabled: bool, perMinute: int, requests: seq<Request>, host: string)
    ensures MiddlewareHits(enabled, perMinute, requests) ==
            RunHits(MiddlewareConfig(perMinute), GatedCalls(enabled, requests))
    ensures ForwardedStamps(enabled, perMinute, requests, host) ==
            Accepted(MiddlewareConfig(perMinute), GatedCalls(enabled, requests), host)
  {
    if requests != [] {
      var before, request := requests[..|requests| - 1], requests[|requests| - 1];
      MiddlewareRunsLimiter(enabled, perMinute, before, host);
      var calls := GatedCalls(enabled, before);
      assert (calls + [ToCall(request)])[..|calls|] == calls;
      assert calls + [] == calls;
    }
  }

  // Requests that share a quota: those of one client address. Those without one count with "unknown".
  predicate SameClient(a: Request, b: Request) {
    || a.client == b.client
    || (a.client in {None, Some("unknown")} && b.client in {None, Some("unknown")})
  }

  function RequestsOf(requests: seq<Request>, request: Request): seq<Request> {
    if requests == [] then [] else
      var last := requests[|requests| - 1];
      RequestsOf(requests[..|requests| - 1], request) + if SameClient(last, request) then [last] else []
  }

  // Clients are independent: a request is answered as if only the requests of its own client had come.
  lemma ClientsIndependent(enabled: bool, perMinute: int, requests: seq<Request>, request: Request)
    ensures HandleReply(enabled, perMinute, MiddlewareHits(enabled, perMinute, requests), request) ==
            HandleReply(enabled, perMinute, MiddlewareHits(enabled, perMinute, RequestsOf(requests, request)), request)
  {
    hide Recent, Stamps, MiddlewareHits, RequestsOf;
    SameStamps(enabled, perMinute, requests, request);
  }

  lemma {:induction false} SameStamps(enabled: bool, perMinute: int, requests: seq<Request>, request: Request)
    ensures Stamps(MiddlewareHits(enabled, perMinute, requests), Host(request)) ==
            Stamps(MiddlewareHits(enabled, perMinute, RequestsOf(requests, request)), Host(request))
  {
    hide Recent, Stamps, Admits, After;
    if requests != [] {
      var before, last := requests[..|requests| - 1], requests[|requests| - 1];
      var own := RequestsOf(before, request);
      var hits, ownHits := MiddlewareHits(enabled, perMinute, before), MiddlewareHits(enabled, perMinute, own);
      SameStamps(enabled, perMinute, before, request);
      if SameClient(last, request) {
        assert (own + [last])[..|own|] == own;
        AfterSame(MiddlewareConfig(perMinute), hits, ownHits, ToCall(last));
      } else {
        assert own + [] == own;
        AfterOthers(MiddlewareConfig(perMinute), hits, ToCall(last), Host(request));
      }
    }
  }

  lemma AfterSame(cfg: Config, hits: Hits, other: Hits, call: Call)
    requires Stamps(hits, call.key) == Stamps(other, call.key)
    ensures Stamps(After(cfg, hits, call), call.key) == Stamps(After(cfg, other, call), call.key)
  {
    hide Recent, Stamps, After;
    AfterStamps(cfg, hits, call);
    AfterStamps(cfg, other, call);
  }

  // Whatever `rate_limit_per_minute` says, zero and negative included, one host gets at least one request
  // through and at most max(1, perMinute) per started minute of any interval.
  lemma GatedRequestsInAnyInterval(
      enabled: bool, perMinute: int, requests: seq<Request>, host: string, from: int, length: int)
    requires length > 0
    requires ClockMonotone(GatedCalls(enabled, requests))
    ensures CountIn(ForwardedStamps(enabled, perMinute, requests, host), from, from + length) <=
            (if perMinute < 1 then 1 else perMinute) * ((length + 60_000_000 - 1) / 60_000_000)
    ensures (exists i :: 0 <= i < |GatedCalls(enabled, requests)| && GatedCalls(enabled, requests)[i].key == host)
            ==> ForwardedStamps(enabled, perMinute, requests, host) != []
  {
    MiddlewareRunsLimiter(enabled, perMinute, requests, host);
    var cfg, calls := MiddlewareConfig(perMinute), GatedCalls(enabled, requests);
    AcceptedInAnyInterval(cfg, calls, host, from, length);
    FirstCallAdmitted(cfg, calls, host);
  }

  lemma {:induction false} FirstCallAdmitted(cfg: Config, calls: seq<Call>, key: string)
    requires cfg.maxHits >= 1
    ensures (exists i :: 0 <= i < |calls| && calls[i].key == key) <==> Accepted(cfg, calls, key) != []
    ensures Accepted(cfg, calls, key) == [] ==> Stamps(RunHits(cfg, calls), key) == []
  {
    if calls != [] {
      var before, call := calls[..|calls| - 1], calls[|calls| - 1];
      FirstCallAdmitted(cfg, before, key);
      assert calls == before + [call];
      assert forall i :: 0 <= i < |before| ==> calls[i] == before[i];
      assert calls[|calls| - 1] == call;
    }
  }
}
