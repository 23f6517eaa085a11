/** The team profile dialog: colour and icon tiers for the rank, a colour tier for
    the win rate, the achievement badges, and the roster with its captain. */
module TeamProfile {
  import opened Optional
  import opened Sequences
  import RankingBoard

  datatype Team = Team(
    name: string, tag: string, players: Option<seq<string>>, wins: int, losses: int,
    winRate: real, rank: int, totalMatches: int)

  datatype Color = Yellow | Blue | Gray | Green | Red

  /** `getRankColor`: top three, top ten, the rest. */
  function RankColor(rank: int): (c: Color)
    ensures c == Yellow <==> rank <= 3
    ensures c == Blue <==> 3 < rank <= 10
    ensures c == Gray <==> rank > 10
  {
    if rank <= 3 then Yellow else if rank <= 10 then Blue else Gray
  }

  datatype RankIcon = Crown | Trophy | Award | Star

  /** `getRankIcon`: a crown for the leader, then trophy, award and star tiers. */
  function RankIconOf(rank: int): (i: RankIcon)
    ensures i == Crown <==> rank == 1
    ensures i == Trophy <==> rank <= 3 && rank != 1
    ensures i == Award <==> 3 < rank <= 10
    ensures i == Star <==> rank > 10
  {
    if rank == 1 then Crown else if rank <= 3 then Trophy else if rank <= 10 then Award else Star
  }

  /** The icon tiers split the ranks at the same places as the colour tiers. */
  lemma IconTiersMatchColor(rank: int)
    ensures RankIconOf(rank) in {Crown, Trophy} <==> RankColor(rank) == Yellow
    ensures RankIconOf(rank) == Award <==> RankColor(rank) == Blue
    ensures RankIconOf(rank) == Star <==> RankColor(rank) == Gray
  {
  }

  /** The profile's rank colour and the rankings table's position badge put every
      rank in the same one of three tiers. */
  lemma ColorTiersMatchRankingBadge(rank: int)
    ensures RankColor(rank) == Yellow <==> RankingBoard.PositionBadge(rank) == RankingBoard.DefaultBadge
    ensures RankColor(rank) == Blue <==> RankingBoard.PositionBadge(rank) == RankingBoard.SecondaryBadge
    ensures RankColor(rank) == Gray <==> RankingBoard.PositionBadge(rank) == RankingBoard.OutlineBadge
  {
  }

  /** `getWinRateColor`: at least 70 green, at least 50 yellow, red below. */
  function WinRateColor(winRate: real): (c: Color)
    ensures c == Green <==> winRate >= 70.0
    ensures c == Yellow <==> 50.0 <= winRate < 70.0
    ensures c == Red <==> winRate < 50.0
  {
    if winRate >= 70.0 then Green else if winRate >= 50.0 then Yellow else Red
  }

  /** A higher win rate never gets a worse colour. */
  lemma WinRateColorMonotone(a: real, b: real)
    requires a <= b
    ensures WinRateColor(a) == Green ==> WinRateColor(b) == Green
    ensures WinRateColor(a) == Yellow ==> WinRateColor(b) != Red
  {
  }

  datatype Achievement = TopThree | HighPerformance | Veteran | Winner

  /** Every badge in the order the dialog lays them out. */
  const AllAchievements: seq<Achievement> := [TopThree, HighPerformance, Veteran, Winner]

  predicate Earned(t: Team, a: Achievement) {
    match a
    case TopThree => t.rank <= 3
    case HighPerformance => t.winRate >= 70.0
    case Veteran => t.totalMatches >= 10
    case Winner => t.wins >= 5
  }

  function EarnedBy(t: Team): Achievement -> bool {
    a => Earned(t, a)
  }

  /** The badges a team shows: each one exactly when its condition holds, in layout order. */
  function Achievements(t: Team): (r: seq<Achievement>)
    ensures |r| <= 4
    ensures forall i :: 0 <= i < |r| ==> Earned(t, r[i])
  {
    Filter(AllAchievements, EarnedBy(t))
  }

  lemma AchievementsExact(t: Team)
    ensures TopThree in Achievements(t) <==> t.rank <= 3
    ensures HighPerformance in Achievements(t) <==> t.winRate >= 70.0
    ensures Veteran in Achievements(t) <==> t.totalMatches >= 10
    ensures Winner in Achievements(t) <==> t.wins >= 5
    ensures IsSubsequence(Achievements(t), AllAchievements)
  {
    FilterMembers(AllAchievements, EarnedBy(t));
    FilterIsSubsequence(AllAchievements, EarnedBy(t));
  }

  /** The Top 3 badge and the yellow rank colour always appear together. */
  lemma TopThreeBadgeIsYellow(t: Team)
    ensures TopThree in Achievements(t) <==> RankColor(t.rank) == Yellow
  {
    AchievementsExact(t);
  }

  /** The count in the roster heading: the list length, 0 when there is no list. */
  function PlayerCount(t: Team): (n: nat)
    ensures t.players.None? ==> n == 0
    ensures t.players.Some? ==> n == |t.players.value|
  {
    if t.players.Some? then |t.players.value| else 0
  }

  datatype Role = Captain | Player

  datatype RosterLine = RosterLine(player: string, role: Role)

  /** The roster: every player in list order, the first one labelled captain and
      every other one player; no lines when the list is missing or empty. */
  function Roster(t: Team): (r: seq<RosterLine>)
    ensures |r| == PlayerCount(t)
    ensures forall i :: 0 <= i < |r| ==> r[i].player == t.players.value[i]
    ensures forall i :: 0 <= i < |r| ==> (r[i].role == Captain <==> i == 0)
  {
    var ps := if t.players.Some? then t.players.value else [];
    seq(|ps|, i requires 0 <= i < |ps| => RosterLine(ps[i], if i == 0 then Captain else Player))
  }

  function IsCaptainLine(l: RosterLine): bool {
    l.role == Captain
  }

  /** A non-empty roster has exactly one captain. */
  lemma OneCaptain(t: Team)
    requires PlayerCount(t) > 0
    ensures |Filter(Roster(t), IsCaptainLine)| == 1
  {
    var r := Roster(t);
    assert r == [r[0]] + r[1..];
    FilterConcat([r[0]], r[1..], IsCaptainLine);
    FilterSingleton(r[0], IsCaptainLine);
    FilterKeepsNone(r[1..], IsCaptainLine);
  }
}
