/** The set-replay loop of skill.py. The rating type R and the update
    `trueskill.rate` are left abstract: R is a type parameter, `rate` a
    function parameter, and `default` is the value `trueskill.Rating()` gives
    every new player. The wall clock is replaced by `currentYear` and the
    local-time conversion by `yearOf`. */
module RatingEngine {
  import opened Wrappers
  import opened Snapshot
  import opened Ordering

  /** A registry entry: the fields of skill.py's `Player`. `name` is only
      ever set for single-participant entrants. */
  datatype Player<R> = Player(prefix: Option<string>, tag: Option<string>, name: Option<string>,
                              rating: R, sets: nat, wins: nat)

  /** The `players` defaultdict, keyed by player id. */
  type Registry<R> = map<int, Player<R>>

  /** The multi-team update: rating groups and their ranks to new rating groups. */
  type RateFn<!R> = (seq<map<int, R>>, seq<int>) -> seq<map<int, R>>

  /** The class defaults of `Player`. */
  function NewPlayer<R>(default: R): Player<R>
  {
    Player(None, None, None, default, 0, 0)
  }

  /** The entry `players[id]` reads, created with the defaults if absent. */
  function Lookup<R>(players: Registry<R>, id: int, default: R): Player<R>
  {
    if id in players then players[id] else NewPlayer(default)
  }

  /** Nobody has more wins than sets. */
  ghost predicate Consistent<R>(players: Registry<R>)
  {
    forall id :: id in players ==> players[id].wins <= players[id].sets
  }

  /** Only prefix, tag and name differ between the two entries. */
  ghost predicate SameRecord<R>(p: Player<R>, q: Player<R>)
  {
    p.rating == q.rating && p.sets == q.sets && p.wins == q.wins
  }

  /** A created player starts with no sets and no wins, so it is consistent. */
  lemma NewPlayerCounters<R>(players: Registry<R>, id: int, default: R)
    requires id !in players
    ensures Lookup(players, id, default).sets == 0 && Lookup(players, id, default).wins == 0
    ensures Lookup(players, id, default).rating == default
  {
  }

  // ---------------------------------------------------------------------------
  // Visiting an entrant (skill.py:48-60)

  /** `players_map` keys: the ids of the participants. */
  function Ids(ps: seq<PlayerInfo>): (ids: set<int>)
    ensures ids == {} <==> ps == []
  {
    if ps == [] then {} else Ids(ps[..|ps| - 1]) + {ps[|ps| - 1].id}
  }

  lemma IdsSnoc(ps: seq<PlayerInfo>, k: nat)
    requires k < |ps|
    ensures Ids(ps[..k + 1]) == Ids(ps[..k]) + {ps[k].id}
  {
    assert ps[..k + 1][..k] == ps[..k];
  }

  lemma {:induction false} IdsMembers(ps: seq<PlayerInfo>, id: int)
    ensures id in Ids(ps) <==> exists i :: 0 <= i < |ps| && ps[i].id == id
  {
    if ps != [] {
      var init := ps[..|ps| - 1];
      IdsMembers(init, id);
      assert forall i :: 0 <= i < |init| ==> init[i] == ps[i];
    }
  }

  /** Looks the participant up (creating the entry) and overwrites its prefix and tag. */
  function Touch<R>(players: Registry<R>, info: PlayerInfo, default: R): Registry<R>
  {
    players[info.id := Lookup(players, info.id, default).(prefix := info.prefix, tag := info.gamerTag)]
  }

  /** Touches every participant in order: it creates the missing entries and
      overwrites prefix and tag, and changes nothing else. */
  function TouchAll<R>(players: Registry<R>, ps: seq<PlayerInfo>, default: R): (r: Registry<R>)
    ensures r.Keys == players.Keys + Ids(ps)
  {
    if ps == [] then
      assert Ids(ps) == {};
      players
    else
      var init := ps[..|ps| - 1];
      var last := ps[|ps| - 1];
      IdsSnoc(ps, |ps| - 1);
      assert ps[..|ps| - 1 + 1] == ps;
      Touch(TouchAll(players, init, default), last, default)
  }

  /** Touching creates the participants' entries and changes nothing but
      their prefix and tag. */
  lemma {:induction false} TouchAllKeeps<R>(players: Registry<R>, ps: seq<PlayerInfo>, default: R)
    ensures forall id :: id in TouchAll(players, ps, default) ==>
              SameRecord(TouchAll(players, ps, default)[id], Lookup(players, id, default))
              && TouchAll(players, ps, default)[id].name == Lookup(players, id, default).name
    ensures forall id :: id in players && id !in Ids(ps) ==> TouchAll(players, ps, default)[id] == players[id]
  {
    if ps != [] {
      TouchAllKeeps(players, ps[..|ps| - 1], default);
    }
  }

  /** A touched entry carries the prefix and tag of the last participant
      with its id. */
  lemma {:induction false} TouchAllValue<R>(players: Registry<R>, ps: seq<PlayerInfo>, default: R, i: nat)
    requires i < |ps|
    requires forall j :: i < j < |ps| ==> ps[j].id != ps[i].id
    ensures ps[i].id in TouchAll(players, ps, default)
    ensures TouchAll(players, ps, default)[ps[i].id].prefix == ps[i].prefix
    ensures TouchAll(players, ps, default)[ps[i].id].tag == ps[i].gamerTag
  {
    if i < |ps| - 1 {
      var init := ps[..|ps| - 1];
      assert forall j :: i < j < |init| ==> init[j] == ps[j];
      TouchAllValue(players, init, default, i);
    }
  }

  lemma SingletonMember<T>(s: set<T>, x: T, y: T)
    requires |s| == 1 && x in s && y in s
    ensures x == y
  {
    var t := s - {x};
    assert s == t + {x};
  }

  /** The team one entrant contributes to `rating_groups`: each participant's
      rating as it stood before the set. */
  function TeamRatings<R>(players: Registry<R>, ps: seq<PlayerInfo>, default: R): (team: map<int, R>)
    ensures team.Keys == Ids(ps)
  {
    map id | id in Ids(ps) :: Lookup(players, id, default).rating
  }

  /** Sets the entrant's name on the registry entry of its last participant,
      but only when the entrant's participants have exactly one distinct id. */
  function Label<R>(touched: Registry<R>, e: Entrant): Registry<R>
    requires Ids(e.participants) <= touched.Keys
  {
    if |Ids(e.participants)| == 1 then
      var id := e.participants[|e.participants| - 1].id;
      assert id in Ids(e.participants);
      touched[id := touched[id].(name := Some(e.name))]
    else
      touched
  }

  /** The label changes names only: an entrant whose participants have one
      id gives that id's entry the entrant's name, and no other name changes. */
  lemma LabelNames<R>(touched: Registry<R>, e: Entrant)
    requires Ids(e.participants) <= touched.Keys
    ensures Label(touched, e).Keys == touched.Keys
    ensures forall id :: id in touched ==>
              Label(touched, e)[id] == touched[id].(name := Label(touched, e)[id].name)
    ensures forall id :: id in touched ==>
              Label(touched, e)[id].name
              == if |Ids(e.participants)| == 1 && id in Ids(e.participants) then Some(e.name) else touched[id].name
  {
    var ids := Ids(e.participants);
    if |ids| == 1 {
      var last := e.participants[|e.participants| - 1].id;
      IdsMembers(e.participants, last);
      forall id | id in ids
        ensures id == last
      {
        SingletonMember(ids, id, last);
      }
    }
  }

  /** The registry after the participants loop and the label of a
      single-participant entrant (skill.py:51-60). */
  function VisitEntrant<R>(players: Registry<R>, e: Entrant, default: R): Registry<R>
  {
    Label(TouchAll(players, e.participants, default), e)
  }

  lemma VisitEntrantKeeps<R>(players: Registry<R>, e: Entrant, default: R)
    ensures VisitEntrant(players, e, default).Keys == players.Keys + Ids(e.participants)
    ensures forall id :: id in VisitEntrant(players, e, default) ==>
              SameRecord(VisitEntrant(players, e, default)[id], Lookup(players, id, default))
    ensures forall id :: id in players && id !in Ids(e.participants) ==>
              VisitEntrant(players, e, default)[id] == players[id]
  {
    TouchAllKeeps(players, e.participants, default);
  }

  /** What visiting an entrant writes into a participant's entry: the prefix
      and tag of the last participant with that id, and the entrant's name
      when the entrant has a single id; other names stay as they were. */
  lemma VisitEntrantWrites<R>(players: Registry<R>, e: Entrant, default: R, i: nat)
    requires i < |e.participants|
    requires forall j :: i < j < |e.participants| ==> e.participants[j].id != e.participants[i].id
    ensures e.participants[i].id in VisitEntrant(players, e, default)
    ensures var p := e.participants[i];
            var v := VisitEntrant(players, e, default)[p.id];
            && v.prefix == p.prefix && v.tag == p.gamerTag
            && v.name == if |Ids(e.participants)| == 1 then Some(e.name) else Lookup(players, p.id, default).name
  {
    var p := e.participants[i];
    var touched := TouchAll(players, e.participants, default);
    TouchAllValue(players, e.participants, default, i);
    TouchAllKeeps(players, e.participants, default);
    IdsMembers(e.participants, p.id);
    LabelNames(touched, e);
  }

  /** The participants loop (skill.py:51-58): returns the new registry, the
      team's ratings and the ids of `players_map`. */
  method TouchParticipants<R>(players: Registry<R>, ps: seq<PlayerInfo>, default: R)
    returns (players': Registry<R>, team: map<int, R>, ids: set<int>)
    ensures players' == TouchAll(players, ps, default)
    ensures team == TeamRatings(players, ps, default)
    ensures ids == Ids(ps)
  {
    players', team, ids := players, map[], {};
    var k := 0;
    while k < |ps|
      invariant 0 <= k <= |ps|
      invariant players' == TouchAll(players, ps[..k], default)
      invariant ids == Ids(ps[..k])
      invariant team == TeamRatings(players, ps[..k], default)
    {
      var p := ps[k];
      VisitStep(players, ps, k, default);
      var player := Lookup(players', p.id, default).(prefix := p.prefix, tag := p.gamerTag);
      players' := players'[p.id := player];
      ids := ids + {p.id};
      team := team[p.id := player.rating];
      k := k + 1;
    }
    assert ps[..k] == ps;
  }

  /** One entrant (skill.py:48-60): touch its participants, then label a
      single participant with the entrant's name. */
  method VisitParticipants<R>(players: Registry<R>, e: Entrant, default: R)
    returns (players': Registry<R>, team: map<int, R>, ids: set<int>)
    ensures players' == VisitEntrant(players, e, default)
    ensures team == TeamRatings(players, e.participants, default)
    ensures ids == Ids(e.participants)
  {
    players', team, ids := TouchParticipants(players, e.participants, default);
    ghost var touched := players';
    if |ids| == 1 {
      var id := e.participants[|e.participants| - 1].id;
      assert id in ids;
      players' := players'[id := players'[id].(name := Some(e.name))];
    }
    assert players' == Label(touched, e);
  }

  /** One turn of the participants loop, stated on the specification. */
  lemma VisitStep<R>(players: Registry<R>, ps: seq<PlayerInfo>, k: nat, default: R)
    requires k < |ps|
    ensures TouchAll(players, ps[..k + 1], default) == Touch(TouchAll(players, ps[..k], default), ps[k], default)
    ensures Ids(ps[..k + 1]) == Ids(ps[..k]) + {ps[k].id}
    ensures Lookup(TouchAll(players, ps[..k], default), ps[k].id, default).rating == Lookup(players, ps[k].id, default).rating
    ensures TeamRatings(players, ps[..k + 1], default)
            == TeamRatings(players, ps[..k], default)[ps[k].id := Lookup(players, ps[k].id, default).rating]
  {
    assert ps[..k + 1][..k] == ps[..k];
    IdsSnoc(ps, k);
    TouchAllKeeps(players, ps[..k], default);
  }

  // ---------------------------------------------------------------------------
  // Collecting the slots (skill.py:43-65)

  /** The standings the slot loop visits: it stops at the first slot without one. */
  function Standings(slots: seq<Slot>): (r: seq<Standing>)
    ensures |r| <= |slots|
    ensures forall i :: 0 <= i < |r| ==> slots[i].standing == Some(r[i])
    ensures |r| < |slots| ==> slots[|r|].standing == None
  {
    if slots == [] || slots[0].standing.None? then []
    else [slots[0].standing.value] + Standings(slots[1..])
  }

  /** What the slot loop leaves behind. */
  datatype Collected<R> = Collected(players: Registry<R>, groups: seq<map<int, R>>,
                                    scores: seq<Option<int>>, winners: set<int>)

  /** Every participant id of the given standings. */
  function Participants(sts: seq<Standing>): set<int>
  {
    if sts == [] then {} else Participants(sts[..|sts| - 1]) + Ids(sts[|sts| - 1].entrant.participants)
  }

  /** The slot loop over the collected standings: one group and one score per
      standing, in order; entries of every participant are created and only
      their prefix, tag and name change. */
  function Collect<R>(players: Registry<R>, sts: seq<Standing>, winnerId: Option<int>, default: R): (c: Collected<R>)
    ensures |c.groups| == |sts| && |c.scores| == |sts|
  {
    if sts == [] then Collected(players, [], [], {})
    else
      var init := sts[..|sts| - 1];
      var st := sts[|sts| - 1];
      var c := Collect(players, init, winnerId, default);
      Collected(VisitEntrant(c.players, st.entrant, default),
                c.groups + [TeamRatings(c.players, st.entrant.participants, default)],
                c.scores + [st.score],
                if winnerId == Some(st.entrant.id) then Ids(st.entrant.participants) else c.winners)
  }

  /** One group and one score per collected standing, in slot order; each
      group holds exactly the ids of its entrant's participants. */
  lemma {:induction false} CollectShape<R>(players: Registry<R>, sts: seq<Standing>, winnerId: Option<int>, default: R, i: nat)
    requires i < |sts|
    ensures Collect(players, sts, winnerId, default).scores[i] == sts[i].score
    ensures Collect(players, sts, winnerId, default).groups[i].Keys == Ids(sts[i].entrant.participants)
  {
    var init := sts[..|sts| - 1];
    var st := sts[|sts| - 1];
    var c := Collect(players, init, winnerId, default);
    var all := Collect(players, sts, winnerId, default);
    assert all.scores == c.scores + [st.score];
    assert all.groups == c.groups + [TeamRatings(c.players, st.entrant.participants, default)];
    if i < |init| {
      CollectShape(players, init, winnerId, default, i);
      assert init[i] == sts[i];
    }
  }

  /** The slot loop touches the registry only by creating the entries of
      every visited participant and changing their prefix, tag and name. */
  lemma CollectSnoc<R>(players: Registry<R>, sts: seq<Standing>, winnerId: Option<int>, default: R)
    requires sts != []
    ensures Participants(sts) == Participants(sts[..|sts| - 1]) + Ids(sts[|sts| - 1].entrant.participants)
    ensures Collect(players, sts, winnerId, default).players
            == VisitEntrant(Collect(players, sts[..|sts| - 1], winnerId, default).players, sts[|sts| - 1].entrant, default)
  {
  }

  /** The slot loop creates exactly the entries of the visited participants. */
  lemma {:induction false} CollectKeys<R>(players: Registry<R>, sts: seq<Standing>, winnerId: Option<int>, default: R)
    ensures Collect(players, sts, winnerId, default).players.Keys == players.Keys + Participants(sts)
  {
    if sts != [] {
      var init := sts[..|sts| - 1];
      CollectKeys(players, init, winnerId, default);
      CollectSnoc(players, sts, winnerId, default);
      VisitEntrantKeeps(Collect(players, init, winnerId, default).players, sts[|sts| - 1].entrant, default);
    }
  }

  /** The slot loop changes no rating and no counter. */
  lemma {:induction false} CollectKeepsScores<R>(players: Registry<R>, sts: seq<Standing>, winnerId: Option<int>, default: R, id: int)
    ensures SameRecord(Lookup(Collect(players, sts, winnerId, default).players, id, default), Lookup(players, id, default))
  {
    if sts != [] {
      var init := sts[..|sts| - 1];
      CollectKeepsScores(players, init, winnerId, default, id);
      CollectSnoc(players, sts, winnerId, default);
      var c := Collect(players, init, winnerId, default).players;
      VisitEntrantKeeps(c, sts[|sts| - 1].entrant, default);
    }
  }

  lemma {:induction false} CollectUntouched<R>(players: Registry<R>, sts: seq<Standing>, winnerId: Option<int>, default: R, id: int)
    requires id in players && id !in Participants(sts)
    ensures id in Collect(players, sts, winnerId, default).players
    ensures Collect(players, sts, winnerId, default).players[id] == players[id]
  {
    if sts != [] {
      var init := sts[..|sts| - 1];
      CollectUntouched(players, init, winnerId, default, id);
      CollectSnoc(players, sts, winnerId, default);
      VisitEntrantKeeps(Collect(players, init, winnerId, default).players, sts[|sts| - 1].entrant, default);
    }
  }

  /** One more standing, stated on a prefix of the standings. */
  lemma CollectStep<R>(players: Registry<R>, sts: seq<Standing>, winnerId: Option<int>, default: R, i: nat)
    requires i < |sts|
    ensures var c := Collect(players, sts[..i], winnerId, default);
            var e := sts[i].entrant;
            Collect(players, sts[..i + 1], winnerId, default)
            == Collected(VisitEntrant(c.players, e, default),
                         c.groups + [TeamRatings(c.players, e.participants, default)],
                         c.scores + [sts[i].score],
                         if winnerId == Some(e.id) then Ids(e.participants) else c.winners)
  {
    assert sts[..i + 1][..i] == sts[..i];
    assert sts[..i + 1][i] == sts[i];
  }

  /** The slot loop (skill.py:43-65), with its `break` on a missing standing. */
  method CollectSlots<R>(players: Registry<R>, s: MatchSet, default: R) returns (c: Collected<R>)
    ensures c == Collect(players, Standings(s.slots), s.winnerId, default)
  {
    c := Collected(players, [], [], {});
    ghost var sts := Standings(s.slots);
    var i := 0;
    while i < |s.slots|
      invariant 0 <= i <= |sts|
      invariant c == Collect(players, sts[..i], s.winnerId, default)
    {
      var standing := s.slots[i].standing;
      if standing.None? {
        break;
      }
      var entrant := standing.value.entrant;
      CollectStep(players, sts, s.winnerId, default, i);
      var players', team, ids := VisitParticipants(c.players, entrant, default);
      var winners := if s.winnerId == Some(entrant.id) then ids else c.winners;
      c := Collected(players', c.groups + [team], c.scores + [standing.value.score], winners);
      i := i + 1;
    }
    assert sts[..i] == sts;
  }

  // ---------------------------------------------------------------------------
  // Ranks and commit (skill.py:66-75)

  /** The ranks passed to the update: each score negated. */
  function Ranks(scores: seq<Option<int>>): (ranks: seq<int>)
    requires None !in scores
    ensures |ranks| == |scores|
    ensures forall i :: 0 <= i < |scores| ==> ranks[i] == -scores[i].value
  {
    if scores == [] then []
    else
      assert forall x :: x in scores[1..] ==> x in scores;
      [-scores[0].value] + Ranks(scores[1..])
  }

  /** A set is rated when something was collected and no score is null or -1. */
  predicate Rated<R>(c: Collected<R>)
  {
    |c.groups| > 0 && |c.scores| > 0 && None !in c.scores && Some(-1) !in c.scores
  }

  /** One player's commit: new rating, one more set, one more win if a winner. */
  function Bump<R>(p: Player<R>, rating: R, won: bool): Player<R>
  {
    p.(rating := rating, sets := p.sets + 1, wins := if won then p.wins + 1 else p.wins)
  }

  /** Commit of one rated group: every id of the group is bumped. */
  function CommitGroup<R>(players: Registry<R>, g: map<int, R>, winners: set<int>, default: R): Registry<R>
  {
    map id | id in players.Keys + g.Keys ::
      if id in g then Bump(Lookup(players, id, default), g[id], id in winners) else players[id]
  }

  /** Commit of all rated groups, in order. */
  function CommitAll<R>(players: Registry<R>, groups: seq<map<int, R>>, winners: set<int>, default: R): Registry<R>
  {
    if groups == [] then players
    else CommitGroup(CommitAll(players, groups[..|groups| - 1], winners, default), groups[|groups| - 1], winners, default)
  }

  /** The inner commit loop over one group's `items()` (skill.py:70-75). */
  method CommitTeam<R>(players: Registry<R>, g: map<int, R>, winners: set<int>, default: R)
    returns (players': Registry<R>)
    ensures players' == CommitGroup(players, g, winners, default)
  {
    players' := players;
    var todo: set<int> := g.Keys;
    while todo != {}
      invariant todo <= g.Keys
      invariant players'.Keys == players.Keys + (g.Keys - todo)
      invariant forall id :: id in players' ==>
                  players'[id] == if id in g && id !in todo then Bump(Lookup(players, id, default), g[id], id in winners)
                                  else players[id]
      decreases todo
    {
      ghost var _ := PickOne(todo);
      var id :| id in todo;
      var p := Lookup(players', id, default);
      assert p == Lookup(players, id, default);
      players' := players'[id := p.(rating := g[id], sets := p.sets + 1,
                                    wins := if id in winners then p.wins + 1 else p.wins)];
      todo := todo - {id};
    }
    var spec := CommitGroup(players, g, winners, default);
    assert players'.Keys == spec.Keys;
    assert forall id :: id in spec ==> players'[id] == spec[id];
  }

  lemma PickOne<T>(s: set<T>) returns (x: T)
    requires s != {}
    ensures x in s
  {
    x :| x in s;
  }

  /** The commit loops (skill.py:69-75). */
  method CommitRatings<R>(players: Registry<R>, groups: seq<map<int, R>>, winners: set<int>, default: R)
    returns (players': Registry<R>)
    ensures players' == CommitAll(players, groups, winners, default)
  {
    players' := players;
    var k := 0;
    while k < |groups|
      invariant 0 <= k <= |groups|
      invariant players' == CommitAll(players, groups[..k], winners, default)
    {
      assert groups[..k + 1][..k] == groups[..k];
      players' := CommitTeam(players', groups[k], winners, default);
      k := k + 1;
    }
    assert groups[..k] == groups;
  }

  // ---------------------------------------------------------------------------
  // One set and the whole replay (skill.py:32-75)

  /** What replaying one set does to the registry; an error aborts the run. */
  function Step<R>(players: Registry<R>, s: MatchSet, currentYear: int, yearOf: int -> int,
                   rate: RateFn<R>, default: R): Result<Registry<R>>
    requires s.completedAt.Some?
  {
    if |s.slots| != 2 then Err(UnpackSlots(s.id))
    else if yearOf(s.completedAt.value) != currentYear then Ok(players)
    else
      var c := Collect(players, Standings(s.slots), s.winnerId, default);
      if Rated(c) then Ok(CommitAll(c.players, rate(c.groups, Ranks(c.scores)), c.winners, default))
      else Ok(c.players)
  }

  /** The body of the replay loop for one set (skill.py:36-75). */
  method ReplaySet<R>(players: Registry<R>, s: MatchSet, currentYear: int, yearOf: int -> int,
                      rate: RateFn<R>, default: R) returns (result: Result<Registry<R>>)
    requires s.completedAt.Some?
    ensures result == Step(players, s, currentYear, yearOf, rate, default)
  {
    if |s.slots| != 2 {
      return Err(UnpackSlots(s.id));
    }
    if yearOf(s.completedAt.value) != currentYear {
      return Ok(players);
    }
    var c := CollectSlots(players, s, default);
    if |c.groups| > 0 && |c.scores| > 0 && None !in c.scores && Some(-1) !in c.scores {
      var ranks := Ranks(c.scores);
      var rated := rate(c.groups, ranks);
      var committed := CommitRatings(c.players, rated, c.winners, default);
      return Ok(committed);
    }
    return Ok(c.players);
  }

  /** Replays `ordered` from `players`, stopping at the first error. */
  function ReplayAll<R>(players: Registry<R>, ordered: seq<MatchSet>, currentYear: int, yearOf: int -> int,
                        rate: RateFn<R>, default: R): Result<Registry<R>>
    requires AllCompleted(ordered)
  {
    if ordered == [] then Ok(players)
    else
      match ReplayAll(players, ordered[..|ordered| - 1], currentYear, yearOf, rate, default)
      case Err(e) => Err(e)
      case Ok(q) => Step(q, ordered[|ordered| - 1], currentYear, yearOf, rate, default)
  }

  /** The replay loop (skill.py:32-75) over the snapshot's sets, from an
      empty registry. */
  method Replay<R>(sets: seq<MatchSet>, currentYear: int, yearOf: int -> int, rate: RateFn<R>, default: R)
    returns (result: Result<Registry<R>>)
    ensures result == ReplayAll(map[], ReplayOrder(sets), currentYear, yearOf, rate, default)
  {
    var ordered := ReplayOrder(sets);
    var players: Registry<R> := map[];
    var i := 0;
    while i < |ordered|
      invariant 0 <= i <= |ordered|
      invariant ReplayAll(map[], ordered[..i], currentYear, yearOf, rate, default) == Ok(players)
    {
      ReplayAllSnoc(map[], ordered, i, currentYear, yearOf, rate, default);
      var r := ReplaySet(players, ordered[i], currentYear, yearOf, rate, default);
      if r.Err? {
        result := r;
        ReplayAllStopsAtError(map[], ordered, i + 1, currentYear, yearOf, rate, default);
        return;
      }
      players := r.value;
      i := i + 1;
    }
    assert ordered[..i] == ordered;
    result := Ok(players);
  }

  lemma ReplayAllSnoc<R>(players: Registry<R>, ordered: seq<MatchSet>, i: nat,
                         currentYear: int, yearOf: int -> int, rate: RateFn<R>, default: R)
    requires AllCompleted(ordered) && i < |ordered|
    ensures AllCompleted(ordered[..i]) && AllCompleted(ordered[..i + 1])
    ensures ReplayAll(players, ordered[..i + 1], currentYear, yearOf, rate, default)
            == match ReplayAll(players, ordered[..i], currentYear, yearOf, rate, default)
               case Err(e) => Err(e)
               case Ok(q) => Step(q, ordered[i], currentYear, yearOf, rate, default)
  {
    assert ordered[..i + 1][..i] == ordered[..i];
  }

  /** Once a prefix fails, the whole replay fails with the same error. */
  lemma {:induction false} ReplayAllStopsAtError<R>(players: Registry<R>, ordered: seq<MatchSet>, n: nat,
                                                    currentYear: int, yearOf: int -> int, rate: RateFn<R>, default: R)
    requires AllCompleted(ordered) && n <= |ordered|
    requires ReplayAll(players, ordered[..n], currentYear, yearOf, rate, default).Err?
    ensures ReplayAll(players, ordered, currentYear, yearOf, rate, default)
            == ReplayAll(players, ordered[..n], currentYear, yearOf, rate, default)
    decreases |ordered| - n
  {
    if n < |ordered| {
      var m := |ordered| - 1;
      assert ordered[..m][..n] == ordered[..n];
      ReplayAllStopsAtError(players, ordered[..m], n, currentYear, yearOf, rate, default);
      assert ordered[..|ordered|] == ordered;
    } else {
      assert ordered[..n] == ordered;
    }
  }

  // ---------------------------------------------------------------------------
  // Properties of one set

  /** The unpack runs before the year check: a set fails iff it does not have
      exactly two slots. */
  lemma StepFailsIffNotTwoSlots<R>(players: Registry<R>, s: MatchSet, currentYear: int, yearOf: int -> int,
                                   rate: RateFn<R>, default: R)
    requires s.completedAt.Some?
    ensures Step(players, s, currentYear, yearOf, rate, default).Err? <==> |s.slots| != 2
  {
  }

  /** A set from another year leaves the registry exactly as it was. */
  lemma OtherYearUnchanged<R>(players: Registry<R>, s: MatchSet, currentYear: int, yearOf: int -> int,
                              rate: RateFn<R>, default: R)
    requires s.completedAt.Some? && |s.slots| == 2 && yearOf(s.completedAt.value) != currentYear
    ensures Step(players, s, currentYear, yearOf, rate, default) == Ok(players)
  {
  }

  /** A first slot without a standing collects nothing, so the registry is
      left exactly as it was. */
  lemma FirstSlotByeUnchanged<R>(players: Registry<R>, s: MatchSet, currentYear: int, yearOf: int -> int,
                                 rate: RateFn<R>, default: R)
    requires s.completedAt.Some? && |s.slots| == 2 && s.slots[0].standing == None
    ensures Step(players, s, currentYear, yearOf, rate, default) == Ok(players)
  {
    assert Standings(s.slots) == [];
  }

  /** A second slot without a standing only stops the slot loop: with a valid
      first score the set is still rated, with the first entrant's team alone. */
  lemma SecondSlotByeStillRated<R>(players: Registry<R>, s: MatchSet, default: R)
    requires |s.slots| == 2 && s.slots[0].standing.Some? && s.slots[1].standing == None
    requires s.slots[0].standing.value.score.Some? && s.slots[0].standing.value.score.value != -1
    ensures Standings(s.slots) == [s.slots[0].standing.value]
    ensures Rated(Collect(players, Standings(s.slots), s.winnerId, default))
    ensures |Collect(players, Standings(s.slots), s.winnerId, default).groups| == 1
  {
    var sts := Standings(s.slots);
    assert |sts| == 1;
    var c := Collect(players, sts, s.winnerId, default);
    CollectShape(players, sts, s.winnerId, default, 0);
    assert c.scores == [sts[0].score];
  }

  /** When a set is not rated (a null or -1 score, or nothing collected),
      no rating and no counter changes; entries are still created for the
      visited participants and their prefix and tag overwritten. */
  lemma UnratedKeepsScores<R>(players: Registry<R>, s: MatchSet, currentYear: int, yearOf: int -> int,
                              rate: RateFn<R>, default: R, id: int)
    requires s.completedAt.Some? && |s.slots| == 2 && yearOf(s.completedAt.value) == currentYear
    requires !Rated(Collect(players, Standings(s.slots), s.winnerId, default))
    ensures Step(players, s, currentYear, yearOf, rate, default).Ok?
    ensures var q := Step(players, s, currentYear, yearOf, rate, default).value;
            q.Keys == players.Keys + Participants(Standings(s.slots))
            && SameRecord(Lookup(q, id, default), Lookup(players, id, default))
  {
    CollectKeys(players, Standings(s.slots), s.winnerId, default);
    CollectKeepsScores(players, Standings(s.slots), s.winnerId, default, id);
  }

  /** `winners` is empty when no collected entrant is the declared winner. */
  lemma {:induction false} WinnersNone<R>(players: Registry<R>, sts: seq<Standing>, winnerId: Option<int>, default: R)
    requires forall i :: 0 <= i < |sts| ==> winnerId != Some(sts[i].entrant.id)
    ensures Collect(players, sts, winnerId, default).winners == {}
  {
    if sts != [] {
      var init := sts[..|sts| - 1];
      assert forall i :: 0 <= i < |init| ==> init[i] == sts[i];
      WinnersNone(players, init, winnerId, default);
    }
  }

  /** Otherwise `winners` holds the participants of the last collected
      entrant whose id is the declared winner id. */
  lemma {:induction false} WinnersLast<R>(players: Registry<R>, sts: seq<Standing>, winnerId: Option<int>, default: R, i: nat)
    requires i < |sts| && winnerId == Some(sts[i].entrant.id)
    requires forall j :: i < j < |sts| ==> winnerId != Some(sts[j].entrant.id)
    ensures Collect(players, sts, winnerId, default).winners == Ids(sts[i].entrant.participants)
  {
    var init := sts[..|sts| - 1];
    if i < |init| {
      assert forall j :: i < j < |init| ==> init[j] == sts[j];
      WinnersLast(players, init, winnerId, default, i);
    }
  }

  /** The number of groups holding id. */
  function Occurrences<R>(groups: seq<map<int, R>>, id: int): nat
  {
    if groups == [] then 0
    else Occurrences(groups[..|groups| - 1], id) + if id in groups[|groups| - 1] then 1 else 0
  }

  /** The commit adds one set per group holding the player and, for a winner,
      one win per such group; a player in no group is untouched. */
  lemma {:induction false} CommitCounters<R>(players: Registry<R>, groups: seq<map<int, R>>, winners: set<int>,
                                             default: R, id: int)
    ensures Lookup(CommitAll(players, groups, winners, default), id, default).sets
            == Lookup(players, id, default).sets + Occurrences(groups, id)
    ensures Lookup(CommitAll(players, groups, winners, default), id, default).wins
            == Lookup(players, id, default).wins + if id in winners then Occurrences(groups, id) else 0
    ensures Occurrences(groups, id) == 0 ==>
              (id in CommitAll(players, groups, winners, default) <==> id in players)
              && Lookup(CommitAll(players, groups, winners, default), id, default) == Lookup(players, id, default)
  {
    if groups != [] {
      CommitCounters(players, groups[..|groups| - 1], winners, default, id);
    }
  }

  /** The update keeps the shape of the groups: one group out per group in,
      with the same ids. */
  ghost predicate SameShape<R>(out: seq<map<int, R>>, groups: seq<map<int, R>>)
  {
    |out| == |groups| && forall i :: 0 <= i < |groups| ==> out[i].Keys == groups[i].Keys
  }

  lemma {:induction false} SameShapeOccurrences<R>(out: seq<map<int, R>>, groups: seq<map<int, R>>, id: int)
    requires SameShape(out, groups)
    ensures Occurrences(out, id) == Occurrences(groups, id)
  {
    if groups != [] {
      var n := |groups| - 1;
      assert SameShape(out[..n], groups[..n]);
      SameShapeOccurrences(out[..n], groups[..n], id);
    }
  }

  /** The entrants of `sts` that include id. */
  function Appearances(sts: seq<Standing>, id: int): nat
  {
    if sts == [] then 0
    else Appearances(sts[..|sts| - 1], id) + if id in Ids(sts[|sts| - 1].entrant.participants) then 1 else 0
  }

  lemma {:induction false} CollectOccurrences<R>(players: Registry<R>, sts: seq<Standing>, winnerId: Option<int>, default: R, id: int)
    ensures Occurrences(Collect(players, sts, winnerId, default).groups, id) == Appearances(sts, id)
  {
    if sts != [] {
      var init := sts[..|sts| - 1];
      CollectOccurrences(players, init, winnerId, default, id);
      var c := Collect(players, init, winnerId, default);
      var g := TeamRatings(c.players, sts[|sts| - 1].entrant.participants, default);
      assert Collect(players, sts, winnerId, default).groups == c.groups + [g];
      assert (c.groups + [g])[..|c.groups|] == c.groups;
    }
  }

  /** A rated set, with an update that keeps the groups' shape: each player
      gains one set per entrant of the set that includes them, and as many
      wins if they are among the winners; everyone else keeps their rating
      and counters, and a player outside the set is not even created. */
  lemma RatedSetCounters<R>(players: Registry<R>, s: MatchSet, currentYear: int, yearOf: int -> int,
                            rate: RateFn<R>, default: R, id: int)
    requires s.completedAt.Some? && |s.slots| == 2 && yearOf(s.completedAt.value) == currentYear
    requires Rated(Collect(players, Standings(s.slots), s.winnerId, default))
    requires var c := Collect(players, Standings(s.slots), s.winnerId, default);
             SameShape(rate(c.groups, Ranks(c.scores)), c.groups)
    ensures Step(players, s, currentYear, yearOf, rate, default).Ok?
    ensures var q := Step(players, s, currentYear, yearOf, rate, default).value;
            var c := Collect(players, Standings(s.slots), s.winnerId, default);
            var n := Appearances(Standings(s.slots), id);
            && Lookup(q, id, default).sets == Lookup(players, id, default).sets + n
            && Lookup(q, id, default).wins == Lookup(players, id, default).wins + (if id in c.winners then n else 0)
            && (n == 0 ==> SameRecord(Lookup(q, id, default), Lookup(players, id, default)))
            && (id !in Participants(Standings(s.slots)) && n == 0 ==> (id in q <==> id in players))
  {
    var sts := Standings(s.slots);
    var c := Collect(players, sts, s.winnerId, default);
    var out := rate(c.groups, Ranks(c.scores));
    CollectKeys(players, sts, s.winnerId, default);
    CollectKeepsScores(players, sts, s.winnerId, default, id);
    CollectOccurrences(players, sts, s.winnerId, default, id);
    SameShapeOccurrences(out, c.groups, id);
    CommitCounters(c.players, out, c.winners, default, id);
  }

  /** Every step keeps `wins <= sets` for every player. */
  lemma StepKeepsConsistent<R>(players: Registry<R>, s: MatchSet, currentYear: int, yearOf: int -> int,
                               rate: RateFn<R>, default: R)
    requires s.completedAt.Some? && Consistent(players)
    ensures Step(players, s, currentYear, yearOf, rate, default).Ok? ==>
            Consistent(Step(players, s, currentYear, yearOf, rate, default).value)
  {
    if |s.slots| == 2 && yearOf(s.completedAt.value) == currentYear {
      var c := Collect(players, Standings(s.slots), s.winnerId, default);
      var q := Step(players, s, currentYear, yearOf, rate, default).value;
      forall id | id in q
        ensures q[id].wins <= q[id].sets
      {
        CollectKeepsScores(players, Standings(s.slots), s.winnerId, default, id);
        if Rated(c) {
          CommitCounters(c.players, rate(c.groups, Ranks(c.scores)), c.winners, default, id);
        }
        assert Lookup(q, id, default) == q[id];
      }
    }
  }

  // ---------------------------------------------------------------------------
  // Properties of the whole replay

  /** The replay fails iff one of the replayed sets does not have exactly two
      slots, whatever its year. */
  lemma {:induction false} ReplayFailsIffBadSlots<R>(players: Registry<R>, ordered: seq<MatchSet>, currentYear: int,
                                                     yearOf: int -> int, rate: RateFn<R>, default: R)
    requires AllCompleted(ordered)
    ensures ReplayAll(players, ordered, currentYear, yearOf, rate, default).Err? <==>
            exists i :: 0 <= i < |ordered| && |ordered[i].slots| != 2
  {
    if ordered != [] {
      var init := ordered[..|ordered| - 1];
      assert forall i :: 0 <= i < |init| ==> init[i] == ordered[i];
      ReplayFailsIffBadSlots(players, init, currentYear, yearOf, rate, default);
    }
  }

  /** The registry built by a replay keeps `wins <= sets` for every player. */
  lemma {:induction false} ReplayKeepsConsistent<R>(players: Registry<R>, ordered: seq<MatchSet>, currentYear: int,
                                                    yearOf: int -> int, rate: RateFn<R>, default: R)
    requires AllCompleted(ordered) && Consistent(players)
    ensures ReplayAll(players, ordered, currentYear, yearOf, rate, default).Ok? ==>
            Consistent(ReplayAll(players, ordered, currentYear, yearOf, rate, default).value)
  {
    if ordered != [] {
      var init := ordered[..|ordered| - 1];
      ReplayKeepsConsistent(players, init, currentYear, yearOf, rate, default);
      var prev := ReplayAll(players, init, currentYear, yearOf, rate, default);
      if prev.Ok? {
        StepKeepsConsistent(prev.value, ordered[|ordered| - 1], currentYear, yearOf, rate, default);
      }
    }
  }

  /** The replay order holds a set with a bad slot count iff the snapshot
      holds a completed one. */
  lemma BadSlotsInOrder(sets: seq<MatchSet>)
    ensures (exists i :: 0 <= i < |ReplayOrder(sets)| && |ReplayOrder(sets)[i].slots| != 2) <==>
            (exists s :: s in sets && s.completedAt.Some? && |s.slots| != 2)
  {
    var ordered := ReplayOrder(sets);
    ReplayOrderSpec(sets);
    if exists s :: s in sets && s.completedAt.Some? && |s.slots| != 2 {
      var s :| s in sets && s.completedAt.Some? && |s.slots| != 2;
      var i :| 0 <= i < |ordered| && ordered[i] == s;
    }
    if exists i :: 0 <= i < |ordered| && |ordered[i].slots| != 2 {
      var i :| 0 <= i < |ordered| && |ordered[i].slots| != 2;
      assert ordered[i] in ordered;
    }
  }

  /** Replaying the snapshot's sets fails iff some completed set does not
      have exactly two slots; otherwise every player has `wins <= sets`. */
  lemma ReplayOutcome<R>(sets: seq<MatchSet>, currentYear: int, yearOf: int -> int, rate: RateFn<R>, default: R)
    ensures var r := ReplayAll(map[], ReplayOrder(sets), currentYear, yearOf, rate, default);
            (r.Err? <==> exists s :: s in sets && s.completedAt.Some? && |s.slots| != 2)
            && (r.Ok? ==> Consistent(r.value))
  {
    ReplayOrderSpec(sets);
    BadSlotsInOrder(sets);
    ReplayFailsIffBadSlots(map[], ReplayOrder(sets), currentYear, yearOf, rate, default);
    ReplayKeepsConsistent(map[], ReplayOrder(sets), currentYear, yearOf, rate, default);
  }

  // ---------------------------------------------------------------------------
  // One-against-one sets

  /** A set between two single-player entrants, both with a valid score, won
      by the first. */
  predicate OneVsOne(s: MatchSet, a: PlayerInfo, b: PlayerInfo)
  {
    && |s.slots| == 2 && s.completedAt.Some?
    && s.slots[0].standing.Some? && s.slots[1].standing.Some?
    && s.slots[0].standing.value.entrant.participants == [a]
    && s.slots[1].standing.value.entrant.participants == [b]
    && a.id != b.id
    && s.slots[0].standing.value.entrant.id != s.slots[1].standing.value.entrant.id
    && s.winnerId == Some(s.slots[0].standing.value.entrant.id)
    && s.slots[0].standing.value.score.Some? && s.slots[0].standing.value.score.value != -1
    && s.slots[1].standing.value.score.Some? && s.slots[1].standing.value.score.value != -1
  }

  lemma IdsSingle(a: PlayerInfo)
    ensures Ids([a]) == {a.id}
  {
    assert [a][..0] == [];
  }

  /** Two single-player entrants: each player appears once. */
  lemma PairAppearances(sa: Standing, sb: Standing, a: PlayerInfo, b: PlayerInfo)
    requires sa.entrant.participants == [a] && sb.entrant.participants == [b] && a.id != b.id
    ensures Appearances([sa, sb], a.id) == 1 && Appearances([sa, sb], b.id) == 1
    ensures Participants([sa, sb]) == {a.id, b.id}
  {
    IdsSingle(a);
    IdsSingle(b);
    var pair := [sa, sb];
    assert pair[..1] == [sa] && pair[1] == sb;
    assert [sa][..0] == [] && [sa][0] == sa;
    assert Appearances([sa], a.id) == 1 && Appearances([sa], b.id) == 0;
    assert Participants([sa]) == {a.id};
  }

  /** Two valid scores make the pair rated. */
  lemma PairRated<R>(players: Registry<R>, sa: Standing, sb: Standing, winnerId: Option<int>, default: R)
    requires sa.score.Some? && sa.score.value != -1 && sb.score.Some? && sb.score.value != -1
    ensures Rated(Collect(players, [sa, sb], winnerId, default))
  {
    var c := Collect(players, [sa, sb], winnerId, default);
    CollectShape(players, [sa, sb], winnerId, default, 0);
    CollectShape(players, [sa, sb], winnerId, default, 1);
    assert c.scores == [sa.score, sb.score];
  }

  /** The slot loop of a one-against-one set collects both entrants, marks
      the set as rated and the first player as the winner. */
  lemma OneVsOneCollect<R>(players: Registry<R>, s: MatchSet, a: PlayerInfo, b: PlayerInfo, default: R)
    requires OneVsOne(s, a, b)
    ensures var c := Collect(players, Standings(s.slots), s.winnerId, default);
            && Rated(c) && c.winners == {a.id}
            && Appearances(Standings(s.slots), a.id) == 1 && Appearances(Standings(s.slots), b.id) == 1
            && Participants(Standings(s.slots)) == {a.id, b.id}
  {
    var sa := s.slots[0].standing.value;
    var sb := s.slots[1].standing.value;
    assert Standings(s.slots) == [sa, sb];
    PairAppearances(sa, sb, a, b);
    PairRated(players, sa, sb, s.winnerId, default);
    WinnersLast(players, [sa, sb], s.winnerId, default, 0);
    IdsSingle(a);
  }

  /** In a rated one-against-one set, with an update that keeps the groups'
      shape, both players gain a set, only the winner gains a win, and both
      end up in the registry. */
  lemma OneVsOneCounters<R>(players: Registry<R>, s: MatchSet, a: PlayerInfo, b: PlayerInfo,
                            currentYear: int, yearOf: int -> int, rate: RateFn<R>, default: R)
    requires OneVsOne(s, a, b) && yearOf(s.completedAt.value) == currentYear
    requires forall gs, rs :: SameShape(rate(gs, rs), gs)
    ensures Step(players, s, currentYear, yearOf, rate, default).Ok?
    ensures var q := Step(players, s, currentYear, yearOf, rate, default).value;
            && a.id in q && b.id in q
            && q[a.id].sets == Lookup(players, a.id, default).sets + 1
            && q[a.id].wins == Lookup(players, a.id, default).wins + 1
            && q[b.id].sets == Lookup(players, b.id, default).sets + 1
            && q[b.id].wins == Lookup(players, b.id, default).wins
  {
    var sts := Standings(s.slots);
    var c := Collect(players, sts, s.winnerId, default);
    OneVsOneCollect(players, s, a, b, default);
    var out := rate(c.groups, Ranks(c.scores));
    assert SameShape(out, c.groups);
    RatedSetCounters(players, s, currentYear, yearOf, rate, default, a.id);
    RatedSetCounters(players, s, currentYear, yearOf, rate, default, b.id);
    CollectKeys(players, sts, s.winnerId, default);
    CommitKeys(c.players, out, c.winners, default);
    var q := Step(players, s, currentYear, yearOf, rate, default).value;
    assert q == CommitAll(c.players, out, c.winners, default);
    assert Lookup(q, a.id, default) == q[a.id] && Lookup(q, b.id, default) == q[b.id];
  }

  /** The commit only adds the ids of the groups. */
  lemma {:induction false} CommitKeys<R>(players: Registry<R>, groups: seq<map<int, R>>, winners: set<int>, default: R)
    ensures players.Keys <= CommitAll(players, groups, winners, default).Keys
  {
    if groups != [] {
      CommitKeys(players, groups[..|groups| - 1], winners, default);
    }
  }

  /** Replaying two sets is stepping through them in turn. */
  lemma ReplayPair<R>(players: Registry<R>, m1: MatchSet, m2: MatchSet,
                      currentYear: int, yearOf: int -> int, rate: RateFn<R>, default: R)
    requires m1.completedAt.Some? && m2.completedAt.Some?
    ensures Step(players, m1, currentYear, yearOf, rate, default).Ok? ==>
            ReplayAll(players, [m1, m2], currentYear, yearOf, rate, default)
            == Step(Step(players, m1, currentYear, yearOf, rate, default).value, m2, currentYear, yearOf, rate, default)
  {
    var ordered := [m1, m2];
    ReplayAllSnoc(players, ordered, 0, currentYear, yearOf, rate, default);
    ReplayAllSnoc(players, ordered, 1, currentYear, yearOf, rate, default);
    assert ordered[..0] == [] && ordered[..2] == ordered;
  }

  /** Two players meet twice in the current year; each wins once. Whatever
      the update does to the ratings, both end with two sets and one win. */
  lemma SplitSeries<R>(m1: MatchSet, m2: MatchSet, a: PlayerInfo, b: PlayerInfo,
                       currentYear: int, yearOf: int -> int, rate: RateFn<R>, default: R)
    requires OneVsOne(m1, a, b) && OneVsOne(m2, b, a)
    requires yearOf(m1.completedAt.value) == currentYear && yearOf(m2.completedAt.value) == currentYear
    requires forall gs, rs :: SameShape(rate(gs, rs), gs)
    ensures var r := ReplayAll(map[], [m1, m2], currentYear, yearOf, rate, default);
            && r.Ok? && a.id in r.value && b.id in r.value
            && r.value[a.id].sets == 2 && r.value[a.id].wins == 1
            && r.value[b.id].sets == 2 && r.value[b.id].wins == 1
  {
    NewPlayerCounters(map[], a.id, default);
    NewPlayerCounters(map[], b.id, default);
    OneVsOneCounters(map[], m1, a, b, currentYear, yearOf, rate, default);
    var q1 := Step(map[], m1, currentYear, yearOf, rate, default).value;
    assert Lookup(q1, a.id, default) == q1[a.id] && Lookup(q1, b.id, default) == q1[b.id];
    OneVsOneCounters(q1, m2, b, a, currentYear, yearOf, rate, default);
    ReplayPair(map[], m1, m2, currentYear, yearOf, rate, default);
  }
}
