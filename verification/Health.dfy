/**
 * Health by attempt: every upstream attempt of every request in a time window, counted by provider
 * and by key, a primary that failed over to its backup with its failures.
 */
module Health {
  /** An empty `provider`, `key` or `error` is one that is not given. */
  datatype Attempt = Attempt(provider: string, key: string, success: bool, error: string)

  /** `refused`: the request was refused for the card or the request itself. */
  datatype Trace = Trace(ts: int, refused: bool, chain: seq<Attempt>)

  datatype Window = Window(attempts: nat, failures: nat, takenOver: nat, byKind: map<string, nat>, refused: nat)

  type Windows = map<string, Window>

  const EMPTY := Window(0, 0, 0, map[], 0)

  function WindowOf(m: Windows, id: string): Window { if id in m then m[id] else EMPTY }

  function KindOf(a: Attempt): string { if a.error == "" then "unknown" else a.error }

  function CountOf(byKind: map<string, nat>, kind: string): nat { if kind in byKind then byKind[kind] else 0 }

  /** An attempt as it is counted. */
  datatype Event = Event(attempt: Attempt, takenOver: bool, refused: bool)

  /** A later attempt by another provider succeeded. */
  predicate IsTakenOver(chain: seq<Attempt>, i: nat)
    requires i < |chain|
  {
    exists j | i < j < |chain| :: chain[j].success && chain[j].provider != chain[i].provider
  }

  function EventOf(t: Trace, i: nat): Event
    requires i < |t.chain|
  {
    Event(t.chain[i], IsTakenOver(t.chain, i), t.refused && i == |t.chain| - 1 && !t.chain[i].success)
  }

  function EventsOf(t: Trace, n: nat): seq<Event>
    requires n <= |t.chain|
  {
    if n == 0 then [] else EventsOf(t, n - 1) + [EventOf(t, n - 1)]
  }

  predicate InWindow(t: Trace, now: int, window: int) { now - window < t.ts <= now }

  /** The attempts of the first `n` traces that are in the window. */
  function Events(traces: seq<Trace>, now: int, window: int, n: nat): seq<Event>
    requires n <= |traces|
  {
    if n == 0 then []
    else if InWindow(traces[n - 1], now, window)
      then Events(traces, now, window, n - 1) + EventsOf(traces[n - 1], |traces[n - 1].chain|)
    else Events(traces, now, window, n - 1)
  }

  datatype By = ByProvider | ByKey

  function IdOf(e: Event, side: By): string { if side.ByProvider? then e.attempt.provider else e.attempt.key }

  /** How many events there are of this ID for which this holds. */
  function Count(events: seq<Event>, side: By, id: string, p: Event -> bool): nat {
    if events == [] then 0
    else
      var last := events[|events| - 1];
      Count(events[..|events| - 1], side, id, p) + if IdOf(last, side) == id && p(last) then 1 else 0
  }

  predicate IsRefused(e: Event) { e.refused }
  predicate IsAttempt(e: Event) { !e.refused }
  predicate IsFailure(e: Event) { !e.refused && !e.attempt.success }
  predicate IsTakenOverFailure(e: Event) { IsFailure(e) && e.takenOver }
  function IsFailureOf(kind: string): Event -> bool { e => IsFailure(e) && KindOf(e.attempt) == kind }

  // ---- Counting ----------------------------------------------------------------------------

  function Counted(w: Window, e: Event): Window {
    if e.refused then w.(refused := w.refused + 1)
    else if e.attempt.success then w.(attempts := w.attempts + 1)
    else
      var kind := KindOf(e.attempt);
      Window(w.attempts + 1, w.failures + 1, if e.takenOver then w.takenOver + 1 else w.takenOver,
             w.byKind[kind := CountOf(w.byKind, kind) + 1], w.refused)
  }

  function Tally(events: seq<Event>, side: By): Windows {
    if events == [] then map[]
    else
      var before, last := Tally(events[..|events| - 1], side), events[|events| - 1];
      var id := IdOf(last, side);
      if id == "" then before else before[id := Counted(WindowOf(before, id), last)]
  }

  lemma TallyStep(events: seq<Event>, e: Event, side: By)
    ensures var before, id := Tally(events, side), IdOf(e, side);
            Tally(events + [e], side) == if id == "" then before else before[id := Counted(WindowOf(before, id), e)]
  {
    assert (events + [e])[..|events|] == events;
  }

  method CountAttempt(windows: Windows, id: string, e: Event) returns (r: Windows)
    ensures r == windows[id := Counted(WindowOf(windows, id), e)]
  {
    var w := WindowOf(windows, id);
    if e.refused {
      return windows[id := w.(refused := w.refused + 1)];
    }
    w := w.(attempts := w.attempts + 1);
    if !e.attempt.success {
      w := w.(failures := w.failures + 1);
      if e.takenOver { w := w.(takenOver := w.takenOver + 1); }
      var kind := KindOf(e.attempt);
      w := w.(byKind := w.byKind[kind := CountOf(w.byKind, kind) + 1]);
    }
    r := windows[id := w];
  }

  /** The windows with one more event counted. */
  function Next(windows: Windows, e: Event, side: By): Windows {
    var id := IdOf(e, side);
    if id == "" then windows else windows[id := Counted(WindowOf(windows, id), e)]
  }

  /** The windows of some events and of the first `n` of a trace. */
  predicate IsTally(windows: Windows, events: seq<Event>, t: Trace, n: nat, side: By)
    requires n <= |t.chain|
  {
    windows == Tally(events + EventsOf(t, n), side)
  }

  lemma TallyNext(windows: Windows, events: seq<Event>, t: Trace, n: nat, side: By)
    requires n < |t.chain| && IsTally(windows, events, t, n, side)
    ensures IsTally(Next(windows, EventOf(t, n), side), events, t, n + 1, side)
  {
    assert events + EventsOf(t, n + 1) == events + EventsOf(t, n) + [EventOf(t, n)];
    TallyStep(events + EventsOf(t, n), EventOf(t, n), side);
  }

  lemma TallyStart(events: seq<Event>, t: Trace, side: By)
    ensures IsTally(Tally(events, side), events, t, 0, side)
  {
    assert events + EventsOf(t, 0) == events;
  }

  /** One trace's attempts. */
  method CountTrace(t: Trace, providers: Windows, keys: Windows, ghost events: seq<Event>)
    returns (providers': Windows, keys': Windows)
    requires providers == Tally(events, ByProvider) && keys == Tally(events, ByKey)
    ensures IsTally(providers', events, t, |t.chain|, ByProvider) && IsTally(keys', events, t, |t.chain|, ByKey)
  {
    providers', keys' := providers, keys;
    TallyStart(events, t, ByProvider);
    TallyStart(events, t, ByKey);
    for j := 0 to |t.chain|
      invariant IsTally(providers', events, t, j, ByProvider) && IsTally(keys', events, t, j, ByKey)
    {
      var e := EventOf(t, j);
      TallyNext(providers', events, t, j, ByProvider);
      TallyNext(keys', events, t, j, ByKey);
      if e.attempt.provider != "" { providers' := CountAttempt(providers', e.attempt.provider, e); }
      if e.attempt.key != "" { keys' := CountAttempt(keys', e.attempt.key, e); }
    }
  }

  method AttemptsFromTraces(traces: seq<Trace>, now: int, window: int) returns (providers: Windows, keys: Windows)
    ensures providers == Tally(Events(traces, now, window, |traces|), ByProvider)
    ensures keys == Tally(Events(traces, now, window, |traces|), ByKey)
  {
    providers, keys := map[], map[];
    for i := 0 to |traces|
      invariant providers == Tally(Events(traces, now, window, i), ByProvider)
      invariant keys == Tally(Events(traces, now, window, i), ByKey)
    {
      if InWindow(traces[i], now, window) {
        providers, keys := CountTrace(traces[i], providers, keys, Events(traces, now, window, i));
      }
    }
  }

  // ---- Conservation ------------------------------------------------------------------------

  /** The sum of the values. */
  ghost function Total(m: map<string, nat>): nat {
    if m == map[] then 0
    else
      var k :| k in m;
      m[k] + Total(m - {k})
  }

  /** It does not matter where the sum begins. */
  lemma {:induction false} TotalFrom(m: map<string, nat>, k: string)
    requires k in m
    ensures Total(m) == m[k] + Total(m - {k})
    decreases |m|
  {
    var first :| first in m && Total(m) == m[first] + Total(m - {first});
    if first != k {
      TotalFrom(m - {first}, k);
      TotalFrom(m - {k}, first);
      assert (m - {first}) - {k} == (m - {k}) - {first};
    }
  }

  lemma TotalIncremented(m: map<string, nat>, k: string)
    ensures Total(m[k := CountOf(m, k) + 1]) == Total(m) + 1
  {
    var more := m[k := CountOf(m, k) + 1];
    TotalFrom(more, k);
    assert more - {k} == m - {k};
    if k in m { TotalFrom(m, k); } else { assert m - {k} == m; }
  }

  /** Every counter counts exactly the events of this ID that it is for. */
  ghost predicate Conserved(w: Window, events: seq<Event>, side: By, id: string) {
    && w.attempts == Count(events, side, id, IsAttempt) && w.refused == Count(events, side, id, IsRefused)
    && w.attempts + w.refused == Count(events, side, id, (e: Event) => true)
    && w.failures == Count(events, side, id, IsFailure) && w.failures == Total(w.byKind) && w.failures <= w.attempts
    && w.takenOver == Count(events, side, id, IsTakenOverFailure)
    && forall kind :: CountOf(w.byKind, kind) == Count(events, side, id, IsFailureOf(kind))
  }

  lemma CountStep(events: seq<Event>, e: Event, side: By, id: string, p: Event -> bool)
    ensures Count(events + [e], side, id, p) == Count(events, side, id, p) + if IdOf(e, side) == id && p(e) then 1
        else 0
  {
    assert (events + [e])[..|events|] == events;
  }

  lemma ConservedStep(w: Window, events: seq<Event>, e: Event, side: By, id: string)
    requires Conserved(w, events, side, id)
    ensures Conserved(if IdOf(e, side) == id then Counted(w, e) else w, events + [e], side, id)
  {
    CountStep(events, e, side, id, IsAttempt);
    CountStep(events, e, side, id, IsRefused);
    CountStep(events, e, side, id, (e: Event) => true);
    CountStep(events, e, side, id, IsFailure);
    CountStep(events, e, side, id, IsTakenOverFailure);
    var after := if IdOf(e, side) == id then Counted(w, e) else w;
    forall kind ensures CountOf(after.byKind, kind) == Count(events + [e], side, id, IsFailureOf(kind)) {
      CountStep(events, e, side, id, IsFailureOf(kind));
      assert CountOf(w.byKind, kind) == Count(events, side, id, IsFailureOf(kind));
    }
    TotalIncremented(w.byKind, KindOf(e.attempt));
  }

  /**
   * For any events: attempts and refusals together are all the events of the provider or key,
   * failures are exactly the failed ones, by kind exactly those of each kind, in sum all of them,
   * and taken over exactly those another provider made good.
   */
  lemma {:induction false} CountsConserved(events: seq<Event>, side: By, id: string)
    requires id != ""
    ensures Conserved(WindowOf(Tally(events, side), id), events, side, id)
  {
    if events != [] {
      var front, last := events[..|events| - 1], events[|events| - 1];
      CountsConserved(front, side, id);
      ConservedStep(WindowOf(Tally(front, side), id), front, last, side, id);
      assert events == front + [last];
    }
  }

  // ---- What is counted where ---------------------------------------------------------------

  /** What an attempt is counted as. */
  datatype What = Attempted | RightlyRefused | Failed | MadeGood | FailedAs(kind: string)

  /** The last attempt of a request refused for the card or the request itself, when it failed. */
  predicate RefusedAt(t: Trace, j: int)
    requires 0 <= j < |t.chain|
  {
    t.refused && j + 1 == |t.chain| && !t.chain[j].success
  }

  predicate IsWhat(what: What, t: Trace, j: int)
    requires 0 <= j < |t.chain|
  {
    var a := t.chain[j];
    match what
    case Attempted => !RefusedAt(t, j)
    case RightlyRefused => RefusedAt(t, j)
    case Failed => !RefusedAt(t, j) && !a.success
    case MadeGood =>
      !RefusedAt(t, j) && !a.success
      && exists k | j + 1 <= k < |t.chain| :: t.chain[k].success && !(t.chain[k].provider == a.provider)
    case FailedAs(kind) => !RefusedAt(t, j) && !a.success && kind == (if a.error != "" then a.error else "unknown")
  }

  function NameOf(side: By, a: Attempt): string { match side case ByProvider => a.provider case ByKey => a.key }

  /** The numbers below `m` for which this holds. */
  function Below(p: int -> bool, m: nat): set<int> { set j | 0 <= j < m && p(j) }

  /** The first `m` attempts of a request by this provider or key that are to be counted so. */
  function PlacesOf(what: What, side: By, id: string, t: Trace, m: nat): set<int> {
    Below(j => 0 <= j < |t.chain| && NameOf(side, t.chain[j]) == id && IsWhat(what, t, j), m)
  }

  /** Later than a window ago and not later than now. */
  predicate IsRecent(t: Trace, now: int, window: int) { now < t.ts + window && !(now < t.ts) }

  function Grid(columns: int -> set<int>, n: nat): set<(int, int)> {
    set i, j | 0 <= i < n && j in columns(i) :: (i, j)
  }

  /** Where in the first `n` requests, of those in the window. */
  function Places(what: What, side: By, id: string, traces: seq<Trace>, now: int, window: int, n: nat): set<(int,
                  int)> {
    Grid(i => if 0 <= i < |traces| && IsRecent(traces[i], now, window)
      then PlacesOf(what, side, id, traces[i], |traces[i].chain|)
              else {}, n)
  }

  function Holds(what: What): Event -> bool {
    match what
    case Attempted => IsAttempt
    case RightlyRefused => IsRefused
    case Failed => IsFailure
    case MadeGood => IsTakenOverFailure
    case FailedAs(kind) => IsFailureOf(kind)
  }

  lemma EventIs(what: What, side: By, t: Trace, j: nat)
    requires j < |t.chain|
    ensures Holds(what)(EventOf(t, j)) <==> IsWhat(what, t, j)
    ensures IdOf(EventOf(t, j), side) == NameOf(side, t.chain[j])
  {
  }

  lemma OneMoreBelow(p: int -> bool, m: nat)
    requires m > 0
    ensures |Below(p, m)| == |Below(p, m - 1)| + if p(m - 1) then 1 else 0
  {
    assert Below(p, m) == if p(m - 1) then Below(p, m - 1) + {m - 1} else Below(p, m - 1);
  }

  lemma PlacesStep(what: What, side: By, id: string, t: Trace, m: nat)
    requires 0 < m <= |t.chain|
    ensures |PlacesOf(what, side, id, t, m)| ==
              |PlacesOf(what, side, id, t, m - 1)|
              + if NameOf(side, t.chain[m - 1]) == id && IsWhat(what, t, m - 1) then 1 else 0
  {
    OneMoreBelow(j => 0 <= j < |t.chain| && NameOf(side, t.chain[j]) == id && IsWhat(what, t, j), m);
  }

  /** One more attempt of a request, counted in either way. */
  lemma EventStep(what: What, side: By, id: string, events: seq<Event>, t: Trace, m: nat)
    requires 0 < m <= |t.chain|
    requires Count(events + EventsOf(t, m - 1), side, id, Holds(what)) ==
               Count(events, side, id, Holds(what)) + |PlacesOf(what, side, id, t, m - 1)|
    ensures Count(events + EventsOf(t, m), side, id, Holds(what))
        == Count(events, side, id, Holds(what)) + |PlacesOf(what, side, id, t, m)|
  {
    EventIs(what, side, t, m - 1);
    CountStep(events + EventsOf(t, m - 1), EventOf(t, m - 1), side, id, Holds(what));
    assert events + EventsOf(t, m) == events + EventsOf(t, m - 1) + [EventOf(t, m - 1)];
    PlacesStep(what, side, id, t, m);
  }

  lemma {:induction false} CountOfChain(what: What, side: By, id: string, events: seq<Event>, t: Trace, m: nat)
    requires m <= |t.chain|
    ensures Count(events + EventsOf(t, m), side, id, Holds(what))
        == Count(events, side, id, Holds(what)) + |PlacesOf(what, side, id, t, m)|
  {
    if m == 0 {
      assert events + EventsOf(t, 0) == events;
    } else {
      CountOfChain(what, side, id, events, t, m - 1);
      EventStep(what, side, id, events, t, m);
    }
  }

  function Pairs(i: int, js: set<int>): set<(int, int)> { set j | j in js :: (i, j) }

  lemma Member<T>(js: set<T>) returns (j: T)
    requires js != {}
    ensures j in js
  {
    j :| j in js;
  }

  lemma {:induction false} AsManyPairs(i: int, js: set<int>)
    ensures |Pairs(i, js)| == |js|
    decreases |js|
  {
    if js == {} {
      assert Pairs(i, js) == {};
    } else {
      var j := Member(js);
      AsManyPairs(i, js - {j});
      assert Pairs(i, js) == Pairs(i, js - {j}) + {(i, j)};
    }
  }

  lemma OneMoreColumn(columns: int -> set<int>, n: nat)
    requires n > 0
    ensures |Grid(columns, n)| == |Grid(columns, n - 1)| + |columns(n - 1)|
  {
    var before, more := Grid(columns, n - 1), Pairs(n - 1, columns(n - 1));
    AsManyPairs(n - 1, columns(n - 1));
    assert Grid(columns, n) == before + more && before !! more;
  }

  lemma RequestStep(what: What, side: By, id: string, traces: seq<Trace>, now: int, window: int, n: nat)
    requires 0 < n <= |traces|
    ensures var t := traces[n - 1];
            |Places(what, side, id, traces, now, window, n)| ==
              |Places(what, side, id, traces, now, window, n - 1)|
              + if IsRecent(t, now, window) then |PlacesOf(what, side, id, t, |t.chain|)| else 0
  {
    OneMoreColumn(i => if 0 <= i < |traces| && IsRecent(traces[i], now, window)
                       then PlacesOf(what, side, id, traces[i], |traces[i].chain|) else {}, n);
  }

  /** As many events are counted as there are such attempts in the window. */
  lemma {:induction false} CountIs(what: What, side: By, id: string, traces: seq<Trace>, now: int, window: int, n: nat)
    requires n <= |traces|
    ensures Count(Events(traces, now, window, n), side, id, Holds(what))
        == |Places(what, side, id, traces, now, window, n)|
  {
    if n == 0 {
      assert Places(what, side, id, traces, now, window, 0) == {};
    } else {
      CountIs(what, side, id, traces, now, window, n - 1);
      RequestStep(what, side, id, traces, now, window, n);
      CountOfChain(what, side, id, Events(traces, now, window, n - 1), traces[n - 1], |traces[n - 1].chain|);
    }
  }

  /** Each counter is the number of the attempts it is for. */
  ghost predicate CountsPlaces(w: Window, side: By, id: string, traces: seq<Trace>, now: int, window: int) {
    && w.attempts == |Places(Attempted, side, id, traces, now, window, |traces|)|
    && w.refused == |Places(RightlyRefused, side, id, traces, now, window, |traces|)|
    && w.failures == |Places(Failed, side, id, traces, now, window, |traces|)|
    && w.takenOver == |Places(MadeGood, side, id, traces, now, window, |traces|)|
    && forall kind ::
         (if kind in w.byKind then w.byKind[kind] else 0)
           == |Places(FailedAs(kind), side, id, traces, now, window, |traces|)|
  }

  /** What is tallied for a provider or key are the attempts of its in the window, each for what it is. */
  lemma TallyIs(traces: seq<Trace>, now: int, window: int, side: By, id: string)
    requires id != ""
    ensures CountsPlaces(WindowOf(Tally(Events(traces, now, window, |traces|), side), id), side, id, traces, now,
        window)
  {
    var events := Events(traces, now, window, |traces|);
    var w := WindowOf(Tally(events, side), id);
    CountsConserved(events, side, id);
    CountIs(Attempted, side, id, traces, now, window, |traces|);
    CountIs(RightlyRefused, side, id, traces, now, window, |traces|);
    CountIs(Failed, side, id, traces, now, window, |traces|);
    CountIs(MadeGood, side, id, traces, now, window, |traces|);
    forall kind ensures CountOf(w.byKind, kind) == |Places(FailedAs(kind), side, id, traces, now, window, |traces|)| {
      CountIs(FailedAs(kind), side, id, traces, now, window, |traces|);
      assert CountOf(w.byKind, kind) == Count(events, side, id, IsFailureOf(kind));
    }
  }
}
