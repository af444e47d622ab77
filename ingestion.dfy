/** The ingestion loop at the end of dump.py: every fetched tournament is
    stored by id, every event name is recorded, and the sets of events whose
    name is whitelisted are fetched and stored by id. */
module Ingestion {
  import opened Snapshot
  import opened Pagination

  /** The event names whose sets are pulled in full. */
  const EventWhitelist: set<string> := {
    "Melee Ladder",
    "Melee Singles",
    "Redemption Bracket",
    "Redemption Bracket (0-2/1-2/2-2ers)",
    "Redemption Bracket (Only happens if less than 64 entrants)"
  }

  /** `m` after storing each v of `items` under `key(v)`, in turn: a dict merge in
      which the last write wins. */
  function LastWins<K, V>(m: map<K, V>, items: seq<V>, key: V -> K): map<K, V>
  {
    if items == [] then m
    else LastWins(m, items[..|items| - 1], key)[key(items[|items| - 1]) := items[|items| - 1]]
  }

  lemma LastWinsSnoc<K, V>(m: map<K, V>, items: seq<V>, x: V, key: V -> K)
    ensures LastWins(m, items + [x], key) == LastWins(m, items, key)[key(x) := x]
  {
    assert (items + [x])[..|items|] == items;
  }

  /** A key is present after the merge iff it was already present or some
      item carries it. */
  lemma {:induction false} LastWinsKeys<K, V>(m: map<K, V>, items: seq<V>, key: V -> K, k: K)
    ensures k in LastWins(m, items, key) <==> k in m || exists i :: 0 <= i < |items| && key(items[i]) == k
  {
    if items != [] {
      var init := items[..|items| - 1];
      LastWinsKeys(m, init, key, k);
      if exists i :: 0 <= i < |init| && key(init[i]) == k {
        var i :| 0 <= i < |init| && key(init[i]) == k;
        assert key(items[i]) == k;
      }
      if exists i :: 0 <= i < |items| && key(items[i]) == k {
        var i :| 0 <= i < |items| && key(items[i]) == k;
        if i < |init| {
          assert key(init[i]) == k;
        }
      }
    }
  }

  /** The value stored under a key is the last item carrying that key. */
  lemma {:induction false} LastWinsValue<K, V>(m: map<K, V>, items: seq<V>, key: V -> K, i: nat)
    requires i < |items|
    requires forall j :: i < j < |items| ==> key(items[j]) != key(items[i])
    ensures key(items[i]) in LastWins(m, items, key)
    ensures LastWins(m, items, key)[key(items[i])] == items[i]
  {
    if i < |items| - 1 {
      var init := items[..|items| - 1];
      assert init[i] == items[i];
      LastWinsValue(m, init, key, i);
    }
  }

  /** Nothing else changes: a key no item carries keeps its entry (or absence). */
  lemma {:induction false} LastWinsUntouched<K, V>(m: map<K, V>, items: seq<V>, key: V -> K, k: K)
    requires forall i :: 0 <= i < |items| ==> key(items[i]) != k
    ensures k in LastWins(m, items, key) <==> k in m
    ensures k in m ==> LastWins(m, items, key)[k] == m[k]
  {
    if items != [] {
      var init := items[..|items| - 1];
      assert forall i :: 0 <= i < |init| ==> init[i] == items[i];
      LastWinsUntouched(m, init, key, k);
    }
  }

  function NamesOf(events: seq<Event>): set<string>
  {
    if events == [] then {} else NamesOf(events[..|events| - 1]) + {events[|events| - 1].name}
  }

  /** The `event_names` set after the given tournaments. */
  function EventNames(ts: seq<Tournament>): set<string>
  {
    if ts == [] then {} else EventNames(ts[..|ts| - 1]) + NamesOf(ts[|ts| - 1].events)
  }

  lemma {:induction false} NamesOfComplete(events: seq<Event>, name: string)
    ensures name in NamesOf(events) <==> exists j :: 0 <= j < |events| && events[j].name == name
  {
    if events != [] {
      var init := events[..|events| - 1];
      NamesOfComplete(init, name);
      assert forall j :: 0 <= j < |init| ==> init[j] == events[j];
    }
  }

  /** `event_names` holds the name of every event of every tournament,
      whitelisted or not, and nothing else. */
  lemma {:induction false} EventNamesComplete(ts: seq<Tournament>, name: string)
    ensures name in EventNames(ts) <==>
            exists i, j :: 0 <= i < |ts| && 0 <= j < |ts[i].events| && ts[i].events[j].name == name
  {
    if ts != [] {
      var init := ts[..|ts| - 1];
      var last := ts[|ts| - 1];
      EventNamesComplete(init, name);
      NamesOfComplete(last.events, name);
      assert forall i :: 0 <= i < |init| ==> init[i] == ts[i];
      if name in NamesOf(last.events) {
        var j :| 0 <= j < |last.events| && last.events[j].name == name;
        assert ts[|ts| - 1].events[j].name == name;
      }
      if exists i, j :: 0 <= i < |ts| && 0 <= j < |ts[i].events| && ts[i].events[j].name == name {
        var i, j :| 0 <= i < |ts| && 0 <= j < |ts[i].events| && ts[i].events[j].name == name;
        if i < |init| {
          assert init[i].events[j].name == name;
        } else {
          assert last.events[j].name == name;
        }
      }
    }
  }

  /** The set fetch of every whitelisted event terminates. */
  ghost predicate EventsFetchable(events: seq<Event>, setPages: int -> (nat -> Page<MatchSet>), whitelist: set<string>)
  {
    forall j :: 0 <= j < |events| && events[j].name in whitelist ==> Terminates(setPages(events[j].id))
  }

  ghost predicate SetFetchesTerminate(ts: seq<Tournament>, setPages: int -> (nat -> Page<MatchSet>), whitelist: set<string>)
  {
    forall i :: 0 <= i < |ts| ==> EventsFetchable(ts[i].events, setPages, whitelist)
  }

  /** Sets fetched for the given events, in order. */
  ghost function EventSets(events: seq<Event>, setPages: int -> (nat -> Page<MatchSet>), whitelist: set<string>): seq<MatchSet>
    requires EventsFetchable(events, setPages, whitelist)
  {
    if events == [] then []
    else
      var e := events[|events| - 1];
      EventSets(events[..|events| - 1], setPages, whitelist)
        + if e.name in whitelist then Fetched(setPages(e.id)) else []
  }

  /** Sets fetched for all events of the given tournaments, in order. */
  ghost function AllSets(ts: seq<Tournament>, setPages: int -> (nat -> Page<MatchSet>), whitelist: set<string>): seq<MatchSet>
    requires SetFetchesTerminate(ts, setPages, whitelist)
  {
    if ts == [] then []
    else AllSets(ts[..|ts| - 1], setPages, whitelist) + EventSets(ts[|ts| - 1].events, setPages, whitelist)
  }

  /** Set s was pulled by fetching the sets of event e. */
  ghost predicate PulledFrom(e: Event, setPages: int -> (nat -> Page<MatchSet>), whitelist: set<string>, s: MatchSet)
  {
    e.name in whitelist && Terminates(setPages(e.id)) && s in Fetched(setPages(e.id))
  }

  /** Some event of `events` pulled set s. */
  ghost predicate SomeEventPulled(events: seq<Event>, setPages: int -> (nat -> Page<MatchSet>), whitelist: set<string>, s: MatchSet)
  {
    exists j :: 0 <= j < |events| && PulledFrom(events[j], setPages, whitelist, s)
  }

  /** Some event of some tournament of `ts` pulled set s. */
  ghost predicate SomeTournamentPulled(ts: seq<Tournament>, setPages: int -> (nat -> Page<MatchSet>), whitelist: set<string>, s: MatchSet)
  {
    exists i :: 0 <= i < |ts| && SomeEventPulled(ts[i].events, setPages, whitelist, s)
  }

  lemma SomeEventPulledSnoc(events: seq<Event>, setPages: int -> (nat -> Page<MatchSet>), whitelist: set<string>, s: MatchSet)
    requires events != []
    ensures SomeEventPulled(events, setPages, whitelist, s) <==>
            SomeEventPulled(events[..|events| - 1], setPages, whitelist, s)
            || PulledFrom(events[|events| - 1], setPages, whitelist, s)
  {
    var init := events[..|events| - 1];
    if SomeEventPulled(events, setPages, whitelist, s) {
      var j :| 0 <= j < |events| && PulledFrom(events[j], setPages, whitelist, s);
      if j < |init| {
        assert init[j] == events[j];
      }
    }
    if SomeEventPulled(init, setPages, whitelist, s) {
      var j :| 0 <= j < |init| && PulledFrom(init[j], setPages, whitelist, s);
      assert init[j] == events[j];
    }
  }

  lemma EventSetsLast(events: seq<Event>, setPages: int -> (nat -> Page<MatchSet>), whitelist: set<string>)
    requires events != [] && EventsFetchable(events, setPages, whitelist)
    ensures EventsFetchable(events[..|events| - 1], setPages, whitelist)
    ensures var e := events[|events| - 1];
            EventSets(events, setPages, whitelist) ==
            EventSets(events[..|events| - 1], setPages, whitelist) + if e.name in whitelist then Fetched(setPages(e.id)) else []
  {
    var init := events[..|events| - 1];
    assert forall j :: 0 <= j < |init| ==> init[j] == events[j];
  }

  lemma {:induction false} EventSetsSource(events: seq<Event>, setPages: int -> (nat -> Page<MatchSet>), whitelist: set<string>, s: MatchSet)
    requires EventsFetchable(events, setPages, whitelist)
    ensures s in EventSets(events, setPages, whitelist) <==> SomeEventPulled(events, setPages, whitelist, s)
  {
    if events != [] {
      EventSetsLast(events, setPages, whitelist);
      EventSetsSource(events[..|events| - 1], setPages, whitelist, s);
      SomeEventPulledSnoc(events, setPages, whitelist, s);
    }
  }

  lemma SomeTournamentPulledSnoc(ts: seq<Tournament>, setPages: int -> (nat -> Page<MatchSet>), whitelist: set<string>, s: MatchSet)
    requires ts != []
    ensures SomeTournamentPulled(ts, setPages, whitelist, s) <==>
            SomeTournamentPulled(ts[..|ts| - 1], setPages, whitelist, s)
            || SomeEventPulled(ts[|ts| - 1].events, setPages, whitelist, s)
  {
    var init := ts[..|ts| - 1];
    if SomeTournamentPulled(ts, setPages, whitelist, s) {
      var i :| 0 <= i < |ts| && SomeEventPulled(ts[i].events, setPages, whitelist, s);
      if i < |init| {
        assert init[i] == ts[i];
      }
    }
    if SomeTournamentPulled(init, setPages, whitelist, s) {
      var i :| 0 <= i < |init| && SomeEventPulled(init[i].events, setPages, whitelist, s);
      assert init[i] == ts[i];
    }
  }

  lemma AllSetsLast(ts: seq<Tournament>, setPages: int -> (nat -> Page<MatchSet>), whitelist: set<string>)
    requires ts != [] && SetFetchesTerminate(ts, setPages, whitelist)
    ensures SetFetchesTerminate(ts[..|ts| - 1], setPages, whitelist)
    ensures EventsFetchable(ts[|ts| - 1].events, setPages, whitelist)
    ensures AllSets(ts, setPages, whitelist) ==
            AllSets(ts[..|ts| - 1], setPages, whitelist) + EventSets(ts[|ts| - 1].events, setPages, whitelist)
  {
    var init := ts[..|ts| - 1];
    assert forall i :: 0 <= i < |init| ==> init[i] == ts[i];
  }

  /** Sets are pulled only for whitelisted events, and every set of every
      whitelisted event is pulled. */
  lemma {:induction false} AllSetsSource(ts: seq<Tournament>, setPages: int -> (nat -> Page<MatchSet>), whitelist: set<string>, s: MatchSet)
    requires SetFetchesTerminate(ts, setPages, whitelist)
    ensures s in AllSets(ts, setPages, whitelist) <==> SomeTournamentPulled(ts, setPages, whitelist, s)
  {
    if ts != [] {
      AllSetsLast(ts, setPages, whitelist);
      AllSetsSource(ts[..|ts| - 1], setPages, whitelist, s);
      EventSetsSource(ts[|ts| - 1].events, setPages, whitelist, s);
      SomeTournamentPulledSnoc(ts, setPages, whitelist, s);
    }
  }

  lemma EventSetsSnoc(events: seq<Event>, j: nat, setPages: int -> (nat -> Page<MatchSet>), whitelist: set<string>)
    requires j < |events|
    requires EventsFetchable(events, setPages, whitelist)
    ensures EventsFetchable(events[..j], setPages, whitelist)
    ensures EventsFetchable(events[..j + 1], setPages, whitelist)
    ensures EventSets(events[..j + 1], setPages, whitelist) ==
            EventSets(events[..j], setPages, whitelist)
              + if events[j].name in whitelist then Fetched(setPages(events[j].id)) else []
  {
    assert events[..j + 1][..j] == events[..j];
  }

  /** Merging two streams in turn is merging their concatenation. */
  lemma {:induction false} LastWinsAppend<K, V>(m: map<K, V>, xs: seq<V>, ys: seq<V>, key: V -> K)
    ensures LastWins(m, xs + ys, key) == LastWins(LastWins(m, xs, key), ys, key)
    decreases |ys|
  {
    if ys == [] {
      assert xs + ys == xs;
    } else {
      var init := ys[..|ys| - 1];
      var y := ys[|ys| - 1];
      assert xs + ys == (xs + init) + [y];
      LastWinsSnoc(m, xs + init, y, key);
      LastWinsAppend(m, xs, init, key);
    }
  }

  /** Stores each set of one event's fetch under its id (dump.py:235-236). */
  method MergeSets(sets: map<int, MatchSet>, fetched: seq<MatchSet>) returns (merged: map<int, MatchSet>)
    ensures merged == LastWins(sets, fetched, SetId)
  {
    merged := sets;
    var k := 0;
    while k < |fetched|
      invariant 0 <= k <= |fetched|
      invariant merged == LastWins(sets, fetched[..k], SetId)
    {
      LastWinsSnoc(sets, fetched[..k], fetched[k], SetId);
      assert fetched[..k + 1] == fetched[..k] + [fetched[k]];
      merged := merged[fetched[k].id := fetched[k]];
      k := k + 1;
    }
    assert fetched[..k] == fetched;
  }

  /** The event loop of one tournament (dump.py:231-236): record every name,
      pull and merge the sets of whitelisted events. */
  method IngestEvents(events: seq<Event>, setPages: int -> (nat -> Page<MatchSet>), whitelist: set<string>,
                      eventNames: set<string>, sets: map<int, MatchSet>)
    returns (names': set<string>, sets': map<int, MatchSet>)
    requires EventsFetchable(events, setPages, whitelist)
    ensures names' == eventNames + NamesOf(events)
    ensures sets' == LastWins(sets, EventSets(events, setPages, whitelist), SetId)
  {
    names', sets' := eventNames, sets;
    var j := 0;
    while j < |events|
      invariant 0 <= j <= |events|
      invariant EventsFetchable(events[..j], setPages, whitelist)
      invariant names' == eventNames + NamesOf(events[..j])
      invariant sets' == LastWins(sets, EventSets(events[..j], setPages, whitelist), SetId)
    {
      var event := events[j];
      EventSetsSnoc(events, j, setPages, whitelist);
      assert NamesOf(events[..j + 1]) == NamesOf(events[..j]) + {event.name} by {
        assert events[..j + 1][..j] == events[..j];
      }
      names' := names' + {event.name};
      if event.name in whitelist {
        var fetched, _, _ := FetchAll(setPages(event.id));
        LastWinsAppend(sets, EventSets(events[..j], setPages, whitelist), fetched, SetId);
        sets' := MergeSets(sets', fetched);
      } else {
        assert EventSets(events[..j], setPages, whitelist) + [] == EventSets(events[..j], setPages, whitelist);
      }
      j := j + 1;
    }
    assert events[..j] == events;
  }

  /** The tournament loop at dump.py:229-236, over an already fetched stream. */
  method Ingest(stream: seq<Tournament>, setPages: int -> (nat -> Page<MatchSet>), whitelist: set<string>)
    returns (tourneys: map<int, Tournament>, eventNames: set<string>, sets: map<int, MatchSet>)
    requires SetFetchesTerminate(stream, setPages, whitelist)
    ensures tourneys == LastWins(map[], stream, TournamentId)
    ensures eventNames == EventNames(stream)
    ensures sets == LastWins(map[], AllSets(stream, setPages, whitelist), SetId)
  {
    tourneys, eventNames, sets := map[], {}, map[];
    var i := 0;
    while i < |stream|
      invariant 0 <= i <= |stream|
      invariant SetFetchesTerminate(stream[..i], setPages, whitelist)
      invariant tourneys == LastWins(map[], stream[..i], TournamentId)
      invariant eventNames == EventNames(stream[..i])
      invariant sets == LastWins(map[], AllSets(stream[..i], setPages, whitelist), SetId)
    {
      var tourney := stream[i];
      assert stream[..i + 1][..i] == stream[..i];
      assert stream[..i + 1][i] == tourney;
      LastWinsSnoc(map[], stream[..i], tourney, TournamentId);
      assert stream[..i + 1] == stream[..i] + [tourney];
      tourneys := tourneys[tourney.id := tourney];
      LastWinsAppend(map[], AllSets(stream[..i], setPages, whitelist), EventSets(tourney.events, setPages, whitelist), SetId);
      eventNames, sets := IngestEvents(tourney.events, setPages, whitelist, eventNames, sets);
      i := i + 1;
    }
    assert stream[..i] == stream;
  }

  /** The whole ingestion run: fetch the tournaments, then ingest them with
      the fixed whitelist. */
  method Dump(tourneyPages: nat -> Page<Tournament>, setPages: int -> (nat -> Page<MatchSet>))
    returns (tourneys: map<int, Tournament>, eventNames: set<string>, sets: map<int, MatchSet>)
    requires Terminates(tourneyPages)
    requires SetFetchesTerminate(Fetched(tourneyPages), setPages, EventWhitelist)
    ensures tourneys == LastWins(map[], Fetched(tourneyPages), TournamentId)
    ensures eventNames == EventNames(Fetched(tourneyPages))
    ensures sets == LastWins(map[], AllSets(Fetched(tourneyPages), setPages, EventWhitelist), SetId)
  {
    var stream, _, _ := FetchAll(tourneyPages);
    tourneys, eventNames, sets := Ingest(stream, setPages, EventWhitelist);
  }
}
