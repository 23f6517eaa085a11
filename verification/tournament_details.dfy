/** The tournament detail dialog: the status badge, the slot count, the organiser
    line and the single action button each status offers. */
module TournamentDetails {
  import opened Optional
  import opened AsciiText

  datatype Organizer = Organizer(username: Option<string>, fullName: Option<string>)

  datatype Championship = Championship(
    id: string, name: string, description: Option<string>, status: string,
    prizePool: string, maxTeamsPerGroup: int, numberOfGroups: int,
    organizer: Option<Organizer>, teamCount: int)

  datatype Variant = Destructive | Gaming | Secondary | Outline

  /** The four statuses the dialog knows; anything else is shown as it comes. */
  predicate KnownStatus(status: string) {
    status in {"active", "registration", "upcoming", "finished"}
  }

  /** `getStatusText`: a Portuguese label for the known statuses, the status itself
      upper-cased otherwise. */
  function StatusText(status: string): (s: string)
    ensures !KnownStatus(status) ==> s == ToUpper(status)
    ensures status == "active" <==> s == "AO VIVO" && KnownStatus(status)
    ensures status == "registration" <==> s == "INSCRIÇÕES" && KnownStatus(status)
    ensures status == "upcoming" ==> s == "EM BREVE"
    ensures status == "finished" ==> s == "FINALIZADO"
  {
    if status == "active" then "AO VIVO"
    else if status == "registration" then "INSCRIÇÕES"
    else if status == "upcoming" then "EM BREVE"
    else if status == "finished" then "FINALIZADO"
    else ToUpper(status)
  }

  /** Every badge text is free of lower-case letters. */
  lemma StatusTextIsUpper(status: string)
    ensures IsUpperCase(StatusText(status))
  {
    UpperCaseIsUpper(status);
  }

  /** `getStatusVariant`: the secondary style for "upcoming" and for any unknown status. */
  function StatusVariant(status: string): (v: Variant)
    ensures v == Destructive <==> status == "active"
    ensures v == Gaming <==> status == "registration"
    ensures v == Outline <==> status == "finished"
    ensures v == Secondary <==> status == "upcoming" || !KnownStatus(status)
  {
    if status == "active" then Destructive
    else if status == "registration" then Gaming
    else if status == "finished" then Outline
    else Secondary
  }

  /** The slots a championship offers: teams per group times groups. */
  function TotalSlots(c: Championship): (n: int)
    ensures n == 0 <==> c.maxTeamsPerGroup == 0 || c.numberOfGroups == 0
    ensures c.maxTeamsPerGroup > 0 && c.numberOfGroups > 0 ==> n >= c.maxTeamsPerGroup && n >= c.numberOfGroups
  {
    MulPositive(c.maxTeamsPerGroup, c.numberOfGroups);
    c.maxTeamsPerGroup * c.numberOfGroups
  }

  /** One more group adds one group's worth of slots, and no groups offer none: so the
      slots are the teams per group added once per group. */
  lemma TotalSlotsPerGroup(c: Championship)
    ensures c.numberOfGroups == 0 ==> TotalSlots(c) == 0
    ensures TotalSlots(c.(numberOfGroups := c.numberOfGroups + 1)) == TotalSlots(c) + c.maxTeamsPerGroup
  {
    var a, b := c.maxTeamsPerGroup, c.numberOfGroups;
    assert a * (b + 1) == a * b + a;
  }

  lemma MulPositive(a: int, b: int)
    ensures a * b == 0 <==> a == 0 || b == 0
    ensures a > 0 && b > 0 ==> a * b >= a && a * b >= b
  {
    if a > 0 && b > 0 {
      assert a * b == a * (b - 1) + a;
      assert a * b == (a - 1) * b + b;
    }
  }

  /** The slots still open; negative once more teams are in than there are slots. */
  function AvailableSlots(c: Championship): (n: int)
    ensures n + c.teamCount == TotalSlots(c)
  {
    TotalSlots(c) - c.teamCount
  }

  /** The "vagas restantes" line, shown only while registration is open. */
  function SlotsHint(c: Championship): (h: Option<int>)
    ensures h.Some? <==> c.status == "registration"
    ensures h.Some? ==> h.value + c.teamCount == TotalSlots(c)
  {
    if c.status == "registration" then Some(AvailableSlots(c)) else None
  }

  /** The description, or the default sentence when it is missing or empty. */
  function DescriptionText(c: Championship): (s: string)
    ensures s != ""
    ensures Truthy(c.description) ==> s == c.description.value
    ensures !Truthy(c.description) ==> s == "Torneio profissional de Call of Duty Mobile"
  {
    if Truthy(c.description) then c.description.value
    else "Torneio profissional de Call of Duty Mobile"
  }

  /** `tournament.organizer?.full_name`. */
  function OrganizerFullName(c: Championship): Option<string> {
    if c.organizer.Some? then c.organizer.value.fullName else None
  }

  /** `tournament.organizer?.username`. */
  function OrganizerUsername(c: Championship): Option<string> {
    if c.organizer.Some? then c.organizer.value.username else None
  }

  /** The organiser line prefers the full name, then the username, then "RankingRoyale";
      empty strings count as missing. */
  function OrganizerLabel(c: Championship): (s: string)
    ensures s != ""
    ensures Truthy(OrganizerFullName(c)) ==> s == OrganizerFullName(c).value
    ensures !Truthy(OrganizerFullName(c)) && Truthy(OrganizerUsername(c)) ==> s == OrganizerUsername(c).value
    ensures !Truthy(OrganizerFullName(c)) && !Truthy(OrganizerUsername(c)) ==> s == "RankingRoyale"
  {
    if Truthy(OrganizerFullName(c)) then OrganizerFullName(c).value
    else if Truthy(OrganizerUsername(c)) then OrganizerUsername(c).value
    else "RankingRoyale"
  }

  datatype Action = WatchLive | Register | ComingSoon | ViewResults

  datatype ActionButton = ActionButton(action: Action, caption: string, enabled: bool)

  /** The one button the dialog shows for a status; none for an unknown status. A full
      championship keeps its register button but disables it and says so. */
  function ActionFor(c: Championship): (b: Option<ActionButton>)
    ensures b.None? <==> !KnownStatus(c.status)
    ensures b.Some? && b.value.action == Register <==> c.status == "registration"
    ensures b.Some? && b.value.action == Register ==>
      (b.value.enabled <==> AvailableSlots(c) > 0) &&
      (b.value.caption == "Inscrever Meu Time" <==> b.value.enabled) &&
      (b.value.caption == "Torneio Lotado" <==> !b.value.enabled)
    ensures b.Some? && b.value.action == ComingSoon ==> !b.value.enabled
    ensures b.Some? && b.value.action != ComingSoon && b.value.action != Register ==> b.value.enabled
    ensures c.status == "active" ==> b == Some(ActionButton(WatchLive, "Assistir Ao Vivo", true))
    ensures c.status == "upcoming" ==> b == Some(ActionButton(ComingSoon, "Em Breve", false))
    ensures c.status == "finished" ==> b == Some(ActionButton(ViewResults, "Ver Resultados", true))
  {
    if c.status == "active" then Some(ActionButton(WatchLive, "Assistir Ao Vivo", true))
    else if c.status == "registration" then
      var open := AvailableSlots(c) > 0;
      Some(ActionButton(Register, if open then "Inscrever Meu Time" else "Torneio Lotado", open))
    else if c.status == "upcoming" then Some(ActionButton(ComingSoon, "Em Breve", false))
    else if c.status == "finished" then Some(ActionButton(ViewResults, "Ver Resultados", true))
    else None
  }

  /** A championship whose registered teams fill every slot cannot take another. */
  lemma FullChampionshipRefuses(c: Championship)
    requires c.status == "registration" && c.teamCount >= TotalSlots(c)
    ensures ActionFor(c) == Some(ActionButton(Register, "Torneio Lotado", false))
  {
  }

  datatype RegisterOutcome = LoginRequired | Registered(message: string)

  /** `handleRegisterTeam`: a visitor is told to log in and the dialog stays open; a
      signed-in user gets a confirmation naming the championship and the dialog closes.
      Returns the outcome and whether the dialog is still open. */
  function RegisterTeam(c: Championship, signedIn: bool): (r: (RegisterOutcome, bool))
    ensures r.0 == LoginRequired <==> !signedIn
    ensures r.1 <==> !signedIn
    ensures r.0.Registered? ==>
      StartsWith(r.0.message, "Seu time foi inscrito no torneio ") && Contains(r.0.message, c.name)
  {
    if !signedIn then (LoginRequired, true)
    else
      var prefix := "Seu time foi inscrito no torneio ";
      var msg := prefix + c.name + ".";
      assert OccursAt(msg, c.name, |prefix|);
      ContainsIffOccurs(msg, c.name);
      (Registered(msg), false)
  }
}
