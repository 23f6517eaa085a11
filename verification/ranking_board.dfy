/** The public rankings page: the championship filter, the podium of the first
    three entries, and the position markers and badges of the full table. */
module RankingBoard {
  import opened Optional
  import opened Sequences

  datatype Entry = Entry(
    position: int, teamName: string, teamTag: Option<string>, championshipName: string,
    championshipId: string, totalPoints: int, totalKills: int, matchesPlayed: int)

  /** The selection value of the "Todos os Torneios" button. */
  const AllChampionships: string := "all"

  function InChampionship(id: string): Entry -> bool {
    (e: Entry) => e.championshipId == id
  }

  /** The rankings kept for a selection: everything for "all", otherwise the entries of
      that championship in their original order. */
  function FilterRankings(entries: seq<Entry>, selected: string): (r: seq<Entry>)
    ensures selected == AllChampionships ==> r == entries
    ensures selected != AllChampionships ==> forall i :: 0 <= i < |r| ==> r[i].championshipId == selected
    ensures |r| <= |entries|
  {
    if selected == AllChampionships then entries else Filter(entries, InChampionship(selected))
  }

  /** A specific selection keeps exactly the entries of that championship, in order. */
  lemma FilterRankingsExact(entries: seq<Entry>, selected: string)
    requires selected != AllChampionships
    ensures forall e :: e in FilterRankings(entries, selected) <==> e in entries && e.championshipId == selected
    ensures IsSubsequence(FilterRankings(entries, selected), entries)
    ensures forall e ::
      multiset(FilterRankings(entries, selected))[e] == if e.championshipId == selected then multiset(entries)[e] else 0
  {
    FilterMembers(entries, InChampionship(selected));
    FilterCounts(entries, InChampionship(selected));
    FilterIsSubsequence(entries, InChampionship(selected));
  }

  /** Applying the same selection twice changes nothing more. */
  lemma FilterRankingsIdempotent(entries: seq<Entry>, selected: string)
    ensures FilterRankings(FilterRankings(entries, selected), selected) == FilterRankings(entries, selected)
  {
    if selected != AllChampionships {
      var r := FilterRankings(entries, selected);
      FilterKeepsAll(r, InChampionship(selected));
    }
  }

  /** When every entry belongs to the selected championship the filter removes nothing. */
  lemma FilterRankingsOneChampionship(entries: seq<Entry>, selected: string)
    requires forall i :: 0 <= i < |entries| ==> entries[i].championshipId == selected
    ensures FilterRankings(entries, selected) == entries
  {
    if selected != AllChampionships {
      FilterKeepsAll(entries, InChampionship(selected));
    }
  }

  datatype Icon = Crown | Medal | Award | Trophy

  /** `getPositionIcon`: the three medal icons, then a generic trophy. */
  function PositionIcon(position: int): (i: Icon)
    ensures i == Crown <==> position == 1
    ensures i == Medal <==> position == 2
    ensures i == Award <==> position == 3
    ensures i == Trophy <==> position != 1 && position != 2 && position != 3
  {
    if position == 1 then Crown
    else if position == 2 then Medal
    else if position == 3 then Award
    else Trophy
  }

  datatype Badge = DefaultBadge | SecondaryBadge | OutlineBadge

  /** `getPositionBadge`: top three, top ten, the rest. */
  function PositionBadge(position: int): (b: Badge)
    ensures b == DefaultBadge <==> position <= 3
    ensures b == SecondaryBadge <==> 3 < position <= 10
    ensures b == OutlineBadge <==> position > 10
  {
    if position <= 3 then DefaultBadge
    else if position <= 10 then SecondaryBadge
    else OutlineBadge
  }

  /** A better position never gets a lesser badge. */
  lemma BadgeMonotone(p: int, q: int)
    requires p <= q
    ensures PositionBadge(q) == DefaultBadge ==> PositionBadge(p) == DefaultBadge
    ensures PositionBadge(q) == SecondaryBadge ==> PositionBadge(p) != OutlineBadge
  {
  }

  /** The position cell of a table row: an icon up to position 3, "#n" after. */
  datatype Marker = IconMarker(icon: Icon) | NumberMarker(n: int)

  function RowMarker(position: int): (m: Marker)
    ensures m.IconMarker? <==> position <= 3
    ensures m.NumberMarker? ==> m.n == position
    ensures m.IconMarker? ==> m.icon == PositionIcon(position)
  {
    if position <= 3 then IconMarker(PositionIcon(position)) else NumberMarker(position)
  }

  /** A row shows an icon exactly when its position badge is the top-three one. */
  lemma MarkerMatchesBadge(position: int)
    ensures RowMarker(position).IconMarker? <==> PositionBadge(position) == DefaultBadge
  {
  }

  /** What the page renders for the filtered list. */
  datatype Page =
    | NoRankings
    | Listing(podium: Option<seq<Entry>>, rows: seq<Entry>, showChampionship: bool)

  /** The empty state for an empty list; otherwise the full table, the championship
      column only for "all", and the podium of the first three when there are three. */
  function RenderPage(entries: seq<Entry>, selected: string): (p: Page)
    ensures p == NoRankings <==> FilterRankings(entries, selected) == []
    ensures p.Listing? ==> p.rows == FilterRankings(entries, selected)
    ensures p.Listing? ==> (p.showChampionship <==> selected == AllChampionships)
    ensures p.Listing? ==> (p.podium.Some? <==> |p.rows| >= 3)
    ensures p.Listing? && p.podium.Some? ==> |p.podium.value| == 3 && p.podium.value == p.rows[..3]
  {
    var rows := FilterRankings(entries, selected);
    if rows == [] then NoRankings
    else Listing(if |rows| >= 3 then Some(rows[..3]) else None, rows, selected == AllChampionships)
  }
}
