/**
 * The records the scraper produces (the interfaces at the head of
 * src/lib/mockData.ts). Optional TypeScript fields become `Option`s.
 */
module Records {
  import opened Wrappers

  /** The three-state match lifecycle. */
  datatype Status = Completed | Live | Upcoming

  /** One decoded points-table row. `nrr` is kept verbatim, sign included. */
  datatype TeamStanding = TeamStanding(
    position: nat,
    team: string,
    played: nat,
    won: nat,
    lost: nat,
    nrr: string,
    points: nat)

  datatype GroupStandings = GroupStandings(group: string, teams: seq<TeamStanding>)

  datatype Match = Match(
    id: string,
    team1: string,
    team2: string,
    team1Score: Option<string>,
    team2Score: Option<string>,
    result: Option<string>,
    venue: string,
    time: string,
    status: Status)
}
