/** The tournament creation form: field updates with the automatic
    teams-per-group computation, and the map-rotation list editor. The
    scoring-rule table it also holds is modelled in ScoringTable. */
module TournamentForm {
  import opened Optional
  import opened AsciiText
  import opened ScoringTable

  datatype TournamentType = Short | Long

  datatype Form = Form(
    name: string,
    description: string,
    kind: TournamentType,
    duration: int,
    maxTeams: int,
    groupCount: int,
    teamsPerGroup: int,
    registrationDeadline: string,
    startDate: string,
    endDate: string,
    gameMode: string,
    mapRotation: seq<string>,
    entryFee: real,
    prizePool: real,
    isPublic: bool,
    allowSpectators: bool,
    scoringRules: seq<ScoringRule>)

  /** A call of `handleInputChange(field, value)`, one constructor per field the form's
      inputs edit. The number inputs pass `parseInt(...) || 0` for the team maximum and
      `parseInt(...) || 1` for the group count, and `parseFloat(...) || 0` for the fee and pool. */
  datatype FieldChange =
    | Name(name: string)
    | Description(description: string)
    | Kind(kind: TournamentType)
    | MaxTeams(maxTeams: int)
    | GroupCount(groupCount: int)
    | RegistrationDeadline(deadline: string)
    | StartDate(startDate: string)
    | EndDate(endDate: string)
    | GameMode(gameMode: string)
    | EntryFee(entryFee: real)
    | PrizePool(prizePool: real)
    | IsPublic(isPublic: bool)
    | AllowSpectators(allow: bool)

  const DefaultForm: Form := Form(
    "", "", Short, 1, 25, 1, 25, "", "", "", "battle-royale", ["Blackout"],
    0.0, 0.0, true, true, DefaultRules)

  /** `Math.ceil(a / b)` for integers. `b` is never 0: the group-count input maps
      0 and unparsable text to 1, but a negative count gets through. */
  function CeilDiv(a: int, b: int): (r: int)
    requires b != 0
    ensures b > 0 ==> (r - 1) * b < a <= r * b
    ensures b < 0 ==> r * b <= a < (r - 1) * b
  {
    if b > 0 then -((-a) / b) else -(a / (-b))
  }

  /** The teams-per-group field holds the ceiling of teams over groups. */
  predicate GroupsConsistent(f: Form) {
    f.groupCount != 0 && f.teamsPerGroup == CeilDiv(f.maxTeams, f.groupCount)
  }

  /** What a change passes as the group count, when it passes one. */
  predicate ValidChange(c: FieldChange) {
    c.GroupCount? ==> c.groupCount != 0
  }

  /** The group-count input: `parseInt(text) || 1`, where `parsed` is what `parseInt`
      returns (`None` for NaN). NaN and 0 both become 1, so the change it passes is
      always one `handleInputChange` can divide by. */
  function GroupCountInput(parsed: Option<int>): (c: FieldChange)
    ensures c.GroupCount? && ValidChange(c)
    ensures parsed.Some? && parsed.value != 0 ==> c.groupCount == parsed.value
    ensures parsed.None? || parsed == Some(0) ==> c.groupCount == 1
  {
    GroupCount(if parsed.None? || parsed.value == 0 then 1 else parsed.value)
  }

  /** The team-maximum input: `parseInt(text) || 0`. */
  function MaxTeamsInput(parsed: Option<int>): (c: FieldChange)
    ensures c.MaxTeams? && ValidChange(c)
    ensures c.maxTeams == if parsed.Some? then parsed.value else 0
  {
    MaxTeams(if parsed.None? then 0 else parsed.value)
  }

  /** `setForm(prev => ({ ...prev, [field]: value }))`: the field alone takes the value. */
  function Store(f: Form, c: FieldChange): (r: Form)
    ensures r.maxTeams == if c.MaxTeams? then c.maxTeams else f.maxTeams
    ensures r.groupCount == if c.GroupCount? then c.groupCount else f.groupCount
    ensures r.teamsPerGroup == f.teamsPerGroup
    ensures r.mapRotation == f.mapRotation && r.scoringRules == f.scoringRules
  {
    match c
    case Name(v) => f.(name := v)
    case Description(v) => f.(description := v)
    case Kind(v) => f.(kind := v)
    case MaxTeams(v) => f.(maxTeams := v)
    case GroupCount(v) => f.(groupCount := v)
    case RegistrationDeadline(v) => f.(registrationDeadline := v)
    case StartDate(v) => f.(startDate := v)
    case EndDate(v) => f.(endDate := v)
    case GameMode(v) => f.(gameMode := v)
    case EntryFee(v) => f.(entryFee := v)
    case PrizePool(v) => f.(prizePool := v)
    case IsPublic(v) => f.(isPublic := v)
    case AllowSpectators(v) => f.(allowSpectators := v)
  }

  /** `handleInputChange`: stores the field, and when it is the team maximum or the
      group count, recomputes teams per group from the new value and the current other one. */
  function HandleInputChange(f: Form, c: FieldChange): (r: Form)
    requires f.groupCount != 0 && ValidChange(c)
    ensures r.groupCount != 0
    ensures r == Store(f, c).(teamsPerGroup := r.teamsPerGroup)
    ensures !(c.MaxTeams? || c.GroupCount?) ==> r == Store(f, c)
    ensures c.MaxTeams? ==> r.maxTeams == c.maxTeams && r.groupCount == f.groupCount
    ensures c.GroupCount? ==> r.groupCount == c.groupCount && r.maxTeams == f.maxTeams
    ensures (c.MaxTeams? || c.GroupCount?) && r.groupCount > 0 ==>
      (r.teamsPerGroup - 1) * r.groupCount < r.maxTeams <= r.teamsPerGroup * r.groupCount
    ensures (c.MaxTeams? || c.GroupCount?) && r.groupCount < 0 ==>
      r.teamsPerGroup * r.groupCount <= r.maxTeams < (r.teamsPerGroup - 1) * r.groupCount
    ensures r.mapRotation == f.mapRotation && r.scoringRules == f.scoringRules
  {
    var stored := Store(f, c);
    if c.MaxTeams? || c.GroupCount? then
      stored.(teamsPerGroup := CeilDiv(stored.maxTeams, stored.groupCount))
    else stored
  }

  /** The ceiling relation is an invariant of the form: the defaults satisfy it and
      every field change keeps it. */
  lemma GroupsStayConsistent(f: Form, c: FieldChange)
    requires GroupsConsistent(f) && ValidChange(c)
    ensures GroupsConsistent(HandleInputChange(f, c))
  {
  }

  lemma DefaultFormConsistent()
    ensures GroupsConsistent(DefaultForm)
    ensures DefaultForm.teamsPerGroup * DefaultForm.groupCount == DefaultForm.maxTeams
  {
  }

  /** An illustration, not a property: 25 teams in one group give 25 per group;
      26 teams in three groups give 9. */
  lemma CeilDivExamples()
    ensures CeilDiv(25, 1) == 25
    ensures CeilDiv(26, 3) == 9
    ensures CeilDiv(0, 4) == 0
  {
  }

  /** The ceiling is the least count of teams per group that seats every team. */
  lemma {:induction false} CeilDivLeast(a: int, b: int, t: int)
    requires b > 0 && a <= t * b
    ensures CeilDiv(a, b) <= t
  {
    var r := CeilDiv(a, b);
    if r > t {
      assert (r - 1) * b >= t * b by {
        assert r - 1 >= t;
        MulMonotone(t, r - 1, b);
      }
    }
  }

  lemma MulMonotone(x: int, y: int, b: int)
    requires x <= y && b > 0
    ensures x * b <= y * b
  {
  }

  /** `addMap`: appends the trimmed name when it is not blank and then clears the input;
      a blank name changes nothing. */
  function AddMap(maps: seq<string>, newMap: string): (r: (seq<string>, string))
    ensures IsBlank(newMap) ==> r == (maps, newMap)
    ensures !IsBlank(newMap) ==>
      && r.0 == maps + [Trim(newMap)]
      && r.0[|maps|] != []
      && !IsSpace(r.0[|maps|][0])
      && r.1 == ""
  {
    var name := Trim(newMap);
    if name != "" then (maps + [name], "") else (maps, newMap)
  }

  /** `removeMap`: drops the entry at `index`; an index outside the list changes nothing. */
  function RemoveMap(maps: seq<string>, index: int): (r: seq<string>)
    ensures 0 <= index < |maps| ==> |r| == |maps| - 1
    ensures 0 <= index < |maps| ==> forall i :: 0 <= i < |r| ==> r[i] == if i < index then maps[i] else maps[i + 1]
    ensures !(0 <= index < |maps|) ==> r == maps
  {
    if 0 <= index < |maps| then maps[..index] + maps[index + 1..] else maps
  }

  /** Removing the map just added restores the rotation. */
  lemma AddThenRemoveMap(maps: seq<string>, newMap: string)
    requires !IsBlank(newMap)
    ensures RemoveMap(AddMap(maps, newMap).0, |maps|) == maps
  {
    assert (maps + [Trim(newMap)])[..|maps|] == maps;
  }
}
