/** The organiser's live view of one championship: the status badge, the
    leaderboard rows with their position markers, and the fixed 50/30/20 split of
    the prize pool. */
module TournamentView {
  import opened Sequences

  datatype Status = Upcoming | Live | Finished

  /** The badge text: live and upcoming have their own label, every other status
      reads as finished. */
  function StatusLabel(s: Status): (text: string)
    ensures text == "AO VIVO" <==> s == Live
    ensures text == "EM BREVE" <==> s == Upcoming
    ensures text == "FINALIZADO" <==> s != Live && s != Upcoming
  {
    if s == Live then "AO VIVO" else if s == Upcoming then "EM BREVE" else "FINALIZADO"
  }

  datatype Trend = Up | Down | Stable

  datatype Team = Team(
    id: string, name: string, players: seq<string>, totalPoints: int, totalKills: int,
    gamesPlayed: int, avgPlacement: real, trend: Trend)

  /** What `getPositionIcon` draws: three medal icons, then the bare number. */
  datatype PositionMarker = Crown | Medal | Award | Number(n: int)

  function PositionIcon(position: int): (m: PositionMarker)
    ensures m == Crown <==> position == 1
    ensures m == Medal <==> position == 2
    ensures m == Award <==> position == 3
    ensures m.Number? <==> position != 1 && position != 2 && position != 3
    ensures m.Number? ==> m.n == position
  {
    if position == 1 then Crown
    else if position == 2 then Medal
    else if position == 3 then Award
    else Number(position)
  }

  datatype Row = Row(team: Team, position: int, isTopThree: bool)

  /** The leaderboard lists the teams in the order given (no sorting): the row at index
      `i` has position `i + 1` and is highlighted exactly when that position is at most 3. */
  function Leaderboard(teams: seq<Team>): (rows: seq<Row>)
    ensures |rows| == |teams|
    ensures forall i :: 0 <= i < |teams| ==>
      rows[i].team == teams[i] && rows[i].position == i + 1 && (rows[i].isTopThree <==> i < 3)
  {
    seq(|teams|, i requires 0 <= i < |teams| => Row(teams[i], i + 1, i + 1 <= 3))
  }

  /** A highlighted row always carries a medal icon, an ordinary row its number. */
  lemma HighlightMatchesIcon(teams: seq<Team>, i: int)
    requires 0 <= i < |teams|
    ensures Leaderboard(teams)[i].isTopThree <==> !PositionIcon(Leaderboard(teams)[i].position).Number?
  {
  }

  function IsHighlighted(r: Row): bool {
    r.isTopThree
  }

  /** At most three rows are highlighted, and they are the first ones. */
  lemma {:induction false} HighlightedRows(teams: seq<Team>)
    ensures Filter(Leaderboard(teams), IsHighlighted) ==
      Leaderboard(teams)[..if |teams| < 3 then |teams| else 3]
  {
    var rows := Leaderboard(teams);
    var k := if |teams| < 3 then |teams| else 3;
    assert rows == rows[..k] + rows[k..];
    FilterConcat(rows[..k], rows[k..], IsHighlighted);
    FilterKeepsAll(rows[..k], IsHighlighted);
    FilterKeepsNone(rows[k..], IsHighlighted);
  }

  datatype Prizes = Prizes(first: real, second: real, third: real)

  /** Half of the pool to the winner, 30% to second place, 20% to third. */
  function PrizeSplit(pool: real): (p: Prizes)
    ensures p.first + p.second + p.third == pool
    ensures pool >= 0.0 ==> p.first >= p.second >= p.third >= 0.0
    ensures p.first == p.second + p.third
    ensures 2.0 * p.second == 3.0 * p.third
  {
    Prizes(pool * 0.5, pool * 0.3, pool * 0.2)
  }

  /** An illustration, not a property: the pool the page shows, 5000, splits into
      2500, 1500 and 1000. */
  lemma ShownPoolSplit()
    ensures PrizeSplit(5000.0) == Prizes(2500.0, 1500.0, 1000.0)
  {
  }

  /** Scaling the pool scales every share by the same factor. */
  lemma PrizeSplitScales(pool: real, k: real)
    ensures PrizeSplit(pool * k) == Prizes(PrizeSplit(pool).first * k, PrizeSplit(pool).second * k, PrizeSplit(pool).third * k)
  {
  }
}
