/** The public team directory: a case-insensitive search over name, tag and
    captain, the experience tier shown on each card, and the three counters above
    the list. */
module TeamDirectory {
  import opened Optional
  import opened AsciiText
  import opened Sequences

  datatype Captain = Captain(username: Option<string>, fullName: Option<string>)

  datatype Team = Team(
    id: string, name: string, tag: Option<string>, players: Option<seq<string>>,
    captain: Option<Captain>, tournamentsCount: int, totalPoints: int)

  /** The experience tier a team's tournament count puts it in. */
  datatype Tier = Rookie | Regular | Veteran

  datatype BadgeVariant = DefaultBadge | SecondaryBadge | OutlineBadge

  function TierOf(tournamentsCount: int): (t: Tier)
    ensures t == Veteran <==> tournamentsCount >= 5
    ensures t == Regular <==> 2 <= tournamentsCount < 5
    ensures t == Rookie <==> tournamentsCount < 2
  {
    if tournamentsCount >= 5 then Veteran
    else if tournamentsCount >= 2 then Regular
    else Rookie
  }

  /** `getTeamBadgeVariant`: the filled badge from five tournaments, the secondary one
      from two, the outline one below. */
  function TeamBadgeVariant(tournamentsCount: int): (v: BadgeVariant)
    ensures v == DefaultBadge <==> tournamentsCount >= 5
    ensures v == SecondaryBadge <==> 2 <= tournamentsCount < 5
    ensures v == OutlineBadge <==> tournamentsCount < 2
  {
    match TierOf(tournamentsCount)
    case Veteran => DefaultBadge
    case Regular => SecondaryBadge
    case Rookie => OutlineBadge
  }

  /** `getTeamStatus`: "VETERANO" from five tournaments, "ATIVO" from two, "NOVATO" below. */
  function TeamStatus(tournamentsCount: int): (s: string)
    ensures s == "VETERANO" <==> tournamentsCount >= 5
    ensures s == "ATIVO" <==> 2 <= tournamentsCount < 5
    ensures s == "NOVATO" <==> tournamentsCount < 2
  {
    match TierOf(tournamentsCount)
    case Veteran => "VETERANO"
    case Regular => "ATIVO"
    case Rookie => "NOVATO"
  }

  /** Badge colour and label always describe the same tier, and both only ever move up
      as a team plays more tournaments. */
  lemma BadgeMatchesStatus(n: int, m: int)
    ensures TeamBadgeVariant(n) == DefaultBadge <==> TeamStatus(n) == "VETERANO"
    ensures TeamBadgeVariant(n) == SecondaryBadge <==> TeamStatus(n) == "ATIVO"
    ensures TeamBadgeVariant(n) == OutlineBadge <==> TeamStatus(n) == "NOVATO"
    ensures n <= m && TeamStatus(n) == "VETERANO" ==> TeamStatus(m) == "VETERANO"
    ensures n <= m && TeamStatus(n) == "ATIVO" ==> TeamStatus(m) != "NOVATO"
  {
  }

  /** Whether `text` contains the search term, ignoring letter case. */
  predicate MatchesText(text: string, term: string) {
    Contains(ToLower(text), ToLower(term))
  }

  /** The search filter: the name, the tag (when present) or the captain's username
      (when present) contains the term, ignoring case. */
  predicate Matches(t: Team, term: string) {
    || MatchesText(t.name, term)
    || (t.tag.Some? && MatchesText(t.tag.value, term))
    || (t.captain.Some? && t.captain.value.username.Some? && MatchesText(t.captain.value.username.value, term))
  }

  function MatchesTerm(term: string): Team -> bool {
    t => Matches(t, term)
  }

  /** The teams the directory lists for a search term, in their original order. */
  function Search(teams: seq<Team>, term: string): (r: seq<Team>)
    ensures |r| <= |teams|
    ensures forall i :: 0 <= i < |r| ==> Matches(r[i], term)
  {
    Filter(teams, MatchesTerm(term))
  }

  /** A team is listed exactly when it is in the directory and matches. */
  lemma SearchExact(teams: seq<Team>, term: string)
    ensures forall t :: t in Search(teams, term) <==> t in teams && Matches(t, term)
    ensures IsSubsequence(Search(teams, term), teams)
    ensures forall t :: multiset(Search(teams, term))[t] == if Matches(t, term) then multiset(teams)[t] else 0
  {
    FilterMembers(teams, MatchesTerm(term));
    FilterCounts(teams, MatchesTerm(term));
    FilterIsSubsequence(teams, MatchesTerm(term));
  }

  /** An empty search lists every team. */
  lemma EmptySearchListsAll(teams: seq<Team>)
    ensures Search(teams, "") == teams
  {
    forall i | 0 <= i < |teams| ensures MatchesTerm("")(teams[i]) {
      ContainsEmpty(ToLower(teams[i].name));
    }
    FilterKeepsAll(teams, MatchesTerm(""));
  }

  /** Only the letters of the term matter, not their case. */
  lemma SearchIgnoresCase(teams: seq<Team>, term: string)
    ensures Search(teams, ToUpper(term)) == Search(teams, term)
    ensures Search(teams, ToLower(term)) == Search(teams, term)
  {
    LowerForgetsCase(term);
    FilterCongruent(teams, MatchesTerm(ToUpper(term)), MatchesTerm(term));
    FilterCongruent(teams, MatchesTerm(ToLower(term)), MatchesTerm(term));
  }

  /** Typing more of a term only narrows the list: when the new term contains the old
      one (ignoring case), every team still listed was listed before, in the same order. */
  lemma LongerTermNarrows(teams: seq<Team>, term: string, longer: string)
    requires Contains(ToLower(longer), ToLower(term))
    ensures IsSubsequence(Search(teams, longer), Search(teams, term))
  {
    forall i | 0 <= i < |teams| && Matches(teams[i], longer) ensures Matches(teams[i], term) {
      var t := teams[i];
      if MatchesText(t.name, longer) {
        ContainsTransitive(ToLower(t.name), ToLower(longer), ToLower(term));
      } else if t.tag.Some? && MatchesText(t.tag.value, longer) {
        ContainsTransitive(ToLower(t.tag.value), ToLower(longer), ToLower(term));
      } else {
        ContainsTransitive(ToLower(t.captain.value.username.value), ToLower(longer), ToLower(term));
      }
    }
    FilterNarrows(teams, MatchesTerm(term), MatchesTerm(longer));
  }

  function IsActive(t: Team): bool {
    t.tournamentsCount >= 2
  }

  /** The "active teams" counter: teams with at least two tournaments. */
  function ActiveCount(teams: seq<Team>): (n: nat)
    ensures n <= |teams|
    ensures n == |teams| <==> forall i :: 0 <= i < |teams| ==> teams[i].tournamentsCount >= 2
    ensures n == 0 <==> forall i :: 0 <= i < |teams| ==> teams[i].tournamentsCount < 2
  {
    FilterLength(teams, IsActive);
    |Filter(teams, IsActive)|
  }

  /** The active counter counts exactly the teams whose card does not say NOVATO. */
  lemma {:induction false} ActiveCountMatchesStatus(teams: seq<Team>)
    ensures ActiveCount(teams) == |Filter(teams, (t: Team) => TeamStatus(t.tournamentsCount) != "NOVATO")|
  {
    FilterCongruent(teams, IsActive, (t: Team) => TeamStatus(t.tournamentsCount) != "NOVATO");
  }

  /** A missing player list counts as no players. */
  function PlayerCount(t: Team): (n: int)
    ensures t.players.Some? ==> n == |t.players.value|
    ensures t.players.None? ==> n == 0
  {
    if t.players.Some? then |t.players.value| else 0
  }

  /** The "total players" counter. */
  function PlayerTotal(teams: seq<Team>): (n: int)
    ensures n >= 0
    ensures teams == [] ==> n == 0
  {
    SumNonNegative(teams, PlayerCount);
    Sum(teams, PlayerCount)
  }

  /** The total is never negative and counts at least the players of each team. */
  lemma {:induction false} PlayerTotalBounds(teams: seq<Team>)
    ensures PlayerTotal(teams) >= 0
    ensures forall i :: 0 <= i < |teams| ==> PlayerCount(teams[i]) <= PlayerTotal(teams)
  {
    if teams != [] {
      PlayerTotalBounds(teams[1..]);
      assert PlayerTotal(teams) == PlayerCount(teams[0]) + PlayerTotal(teams[1..]);
      assert forall i :: 1 <= i < |teams| ==> teams[i] == teams[1..][i - 1];
    }
  }

  /** Registering one more team adds exactly its players to the total. */
  lemma PlayerTotalAppend(teams: seq<Team>, t: Team)
    ensures PlayerTotal(teams + [t]) == PlayerTotal(teams) + PlayerCount(t)
  {
    SumConcat(teams, [t], PlayerCount);
    assert [t][1..] == [];
    assert Sum([t], PlayerCount) == PlayerCount(t) + Sum([], PlayerCount);
  }

  /** The card title: `[TAG] name` when the team has a non-empty tag, the name alone otherwise. */
  function CardTitle(t: Team): (s: string)
    ensures t.tag.Some? && t.tag.value != "" ==> |s| == |t.tag.value| + 3 + |t.name|
    ensures t.tag.Some? && t.tag.value != "" ==>
      s[..|t.tag.value| + 3] == "[" + t.tag.value + "] " && s[|t.tag.value| + 3..] == t.name
    ensures t.tag.None? || t.tag.value == "" ==> s == t.name
  {
    if t.tag.Some? && t.tag.value != "" then "[" + t.tag.value + "] " + t.name else t.name
  }

  /** `team.captain?.username`. */
  function CaptainUsername(t: Team): Option<string> {
    if t.captain.Some? then t.captain.value.username else None
  }

  /** `team.captain?.full_name`. */
  function CaptainFullName(t: Team): Option<string> {
    if t.captain.Some? then t.captain.value.fullName else None
  }

  /** The captain line: the username, else the full name, else "Capitão"; an empty
      string counts as absent. */
  function CaptainLabel(t: Team): (s: string)
    ensures s != ""
    ensures Truthy(CaptainUsername(t)) ==> s == CaptainUsername(t).value
    ensures !Truthy(CaptainUsername(t)) && Truthy(CaptainFullName(t)) ==> s == CaptainFullName(t).value
    ensures !Truthy(CaptainUsername(t)) && !Truthy(CaptainFullName(t)) ==> s == "Capitão"
  {
    if Truthy(CaptainUsername(t)) then CaptainUsername(t).value
    else if Truthy(CaptainFullName(t)) then CaptainFullName(t).value
    else "Capitão"
  }

  /** The heading shown instead of the list when nothing is listed: a search that
      found nothing, or a directory with no teams; none when some team is listed. */
  function EmptyHeading(teams: seq<Team>, term: string): (h: Option<string>)
    ensures h.None? <==> Search(teams, term) != []
    ensures h == Some("Nenhum time cadastrado") ==> term == ""
    ensures h.Some? && term != "" ==> h == Some("Nenhum time encontrado")
    ensures h.Some? && term == "" ==> h == Some("Nenhum time cadastrado")
  {
    if Search(teams, term) != [] then None
    else if term != "" then Some("Nenhum time encontrado")
    else Some("Nenhum time cadastrado")
  }

  /** With no search term the empty-directory heading appears exactly when there are no teams. */
  lemma NoTeamsHeading(teams: seq<Team>)
    ensures EmptyHeading(teams, "") == Some("Nenhum time cadastrado") <==> teams == []
  {
    EmptySearchListsAll(teams);
  }
}
