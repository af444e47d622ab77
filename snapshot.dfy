/** The records that the ingestion run writes to its snapshot and that the
    rating run reads back: tournaments with their events, and sets (matches)
    with their slots, standings, entrants and players. Only the fields the
    core reads are kept. Fields that the scripts dereference without a null
    check (`events`, `entrant`, a participant's player, `stats.score`,
    `slots`) are non-null here, so the errors a null one raises are not part
    of this model. */
module Snapshot {
  import opened Wrappers

  datatype Event = Event(id: int, name: string)

  datatype Tournament = Tournament(id: int, name: string, events: seq<Event>)

  /** A participant's player as the API reports it; prefix and tag may be null. */
  datatype PlayerInfo = PlayerInfo(id: int, prefix: Option<string>, gamerTag: Option<string>)

  /** A team of one or more participants. */
  datatype Entrant = Entrant(id: int, name: string, participants: seq<PlayerInfo>)

  /** `score` is `stats.score.value`: absent (null) or a number, -1 meaning no valid score. */
  datatype Standing = Standing(entrant: Entrant, score: Option<int>)

  /** A slot without a standing is a bye or an unfilled position. */
  datatype Slot = Slot(standing: Option<Standing>)

  /** A set (match); `completedAt` is a Unix timestamp, null while unplayed. */
  datatype MatchSet = MatchSet(id: int, completedAt: Option<int>, winnerId: Option<int>, slots: seq<Slot>)

  function TournamentId(t: Tournament): int { t.id }

  function SetId(s: MatchSet): int { s.id }
}
