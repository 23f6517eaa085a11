/** The "create team" dialog: a name, a tag and five player slots, validated in a
    fixed order before a team record is built from the trimmed input. */
module TeamRegistration {
  import opened Optional
  import opened AsciiText
  import opened Sequences

  datatype TeamForm = TeamForm(name: string, tag: string, players: seq<string>)

  /** The dialog's form state and whether a submission is in flight. */
  datatype Dialog = Dialog(form: TeamForm, loading: bool, open: bool)

  /** Why a submission is refused, in the order the checks run. */
  datatype Rejection = NotSignedIn | NameRequired | TagRequired | TooFewPlayers

  /** The row the dialog inserts into the teams table. */
  datatype TeamRecord = TeamRecord(name: string, tag: string, captainId: string, players: seq<string>)

  datatype Submission =
    | Rejected(reason: Rejection)
    | ProfileMissing
    | Created(record: TeamRecord)

  const PlayerSlots: nat := 5
  const MinPlayers: nat := 3

  const EmptyForm: TeamForm := TeamForm("", "", ["", "", "", "", ""])

  /** The name field stores what is typed. */
  function SetName(f: TeamForm, value: string): (r: TeamForm)
    ensures r.name == value && r.tag == f.tag && r.players == f.players
  {
    f.(name := value)
  }

  /** The tag field upper-cases what is typed. */
  function SetTag(f: TeamForm, value: string): (r: TeamForm)
    ensures IsUpperCase(r.tag) && |r.tag| == |value|
    ensures ToLower(r.tag) == ToLower(value)
    ensures r.name == f.name && r.players == f.players
  {
    UpperCaseIsUpper(value);
    LowerForgetsCase(value);
    f.(tag := ToUpper(value))
  }

  /** `handlePlayerChange`: only slot `index` takes the new value; an index outside
      the slots changes nothing. */
  function SetPlayer(f: TeamForm, index: int, value: string): (r: TeamForm)
    ensures |r.players| == |f.players|
    ensures forall i :: 0 <= i < |f.players| && i != index ==> r.players[i] == f.players[i]
    ensures 0 <= index < |f.players| ==> r.players[index] == value
    ensures r.name == f.name && r.tag == f.tag
  {
    f.(players := seq(|f.players|, i requires 0 <= i < |f.players| =>
      if i == index then value else f.players[i]))
  }

  function IsFilled(p: string): bool {
    Trim(p) != ""
  }

  /** The slots that hold something other than white space, untrimmed and in order. */
  function ActivePlayers(players: seq<string>): (r: seq<string>)
    ensures |r| <= |players|
    ensures forall i :: 0 <= i < |r| ==> !IsBlank(r[i])
  {
    Filter(players, IsFilled)
  }

  /** The active players are exactly the non-blank slots, each name as often as it
      was typed, in slot order. */
  lemma ActivePlayersExact(players: seq<string>)
    ensures forall p :: p in ActivePlayers(players) <==> p in players && !IsBlank(p)
    ensures forall p :: multiset(ActivePlayers(players))[p] == if IsBlank(p) then 0 else multiset(players)[p]
    ensures IsSubsequence(ActivePlayers(players), players)
  {
    FilterMembers(players, IsFilled);
    FilterCounts(players, IsFilled);
    FilterIsSubsequence(players, IsFilled);
  }

  /** `handleSubmit`. The checks run in order: a signed-in user, a non-blank name, a
      non-blank tag, at least three non-blank players. `profileId` is the result of
      looking up the signed-in user's profile; when it is missing nothing is created.
      Otherwise the record holds the trimmed name, the trimmed upper-cased tag, the
      profile as captain and the active players as typed. */
  function Submit(f: TeamForm, signedIn: bool, profileId: Option<string>): (r: Submission)
    ensures r == Rejected(NotSignedIn) <==> !signedIn
    ensures r == Rejected(NameRequired) <==> signedIn && IsBlank(f.name)
    ensures r == Rejected(TagRequired) <==> signedIn && !IsBlank(f.name) && IsBlank(f.tag)
    ensures r == Rejected(TooFewPlayers) <==>
      signedIn && !IsBlank(f.name) && !IsBlank(f.tag) && |ActivePlayers(f.players)| < MinPlayers
    ensures r.ProfileMissing? <==>
      signedIn && !IsBlank(f.name) && !IsBlank(f.tag) && |ActivePlayers(f.players)| >= MinPlayers
      && profileId.None?
    ensures r.Created? ==>
      && r.record.name == Trim(f.name) && r.record.name != ""
      && r.record.tag == ToUpper(Trim(f.tag)) && r.record.tag != ""
      && r.record.captainId == profileId.value
      && MinPlayers <= |r.record.players| <= |f.players|
      && r.record.players == ActivePlayers(f.players)
  {
    if !signedIn then Rejected(NotSignedIn)
    else if Trim(f.name) == "" then Rejected(NameRequired)
    else if Trim(f.tag) == "" then Rejected(TagRequired)
    else
      var active := ActivePlayers(f.players);
      if |active| < MinPlayers then Rejected(TooFewPlayers)
      else if profileId.None? then ProfileMissing
      else
        ActivePlayersExact(f.players);
        Created(TeamRecord(Trim(f.name), ToUpper(Trim(f.tag)), profileId.value, active))
  }

  /** A created record is already normalised: its name and tag have no surrounding
      white space, the tag is upper case, and its players are the non-blank slots, each
      as often as it was typed, in slot order. */
  lemma CreatedRecordNormalised(f: TeamForm, signedIn: bool, profileId: Option<string>)
    requires Submit(f, signedIn, profileId).Created?
    ensures var rec := Submit(f, signedIn, profileId).record;
      && Trim(rec.name) == rec.name
      && Trim(rec.tag) == rec.tag
      && IsUpperCase(rec.tag)
      && (forall p :: multiset(rec.players)[p] == if IsBlank(p) then 0 else multiset(f.players)[p])
      && IsSubsequence(rec.players, f.players)
  {
    var rec := Submit(f, signedIn, profileId).record;
    TrimIdempotent(f.name);
    TrimIdempotent(f.tag);
    TrimUpperCommute(Trim(f.tag));
    UpperCaseIsUpper(Trim(f.tag));
    ActivePlayersExact(f.players);
  }

  /** Typing a tag and submitting stores the same tag as submitting the raw text:
      upper-casing on input and again on submit agree. */
  lemma TagCaseOnInputAndSubmit(f: TeamForm, typed: string, signedIn: bool, profileId: Option<string>)
    requires Submit(SetTag(f, typed), signedIn, profileId).Created?
    ensures Submit(SetTag(f, typed), signedIn, profileId).record.tag == ToUpper(Trim(typed))
  {
    TrimUpperCommute(typed);
    UpperCaseIsUpper(Trim(typed));
    UpperCaseIsUpper(ToUpper(Trim(typed)));
  }

  /** A name, a tag and at least three filled slots followed only by blank ones are
      enough to create a team once a profile is found. */
  lemma ThreePlayersSuffice(name: string, tag: string, filled: seq<string>, blanks: seq<string>, id: string)
    requires !IsBlank(name) && !IsBlank(tag)
    requires |filled| >= MinPlayers
    requires forall i :: 0 <= i < |filled| ==> !IsBlank(filled[i])
    requires forall i :: 0 <= i < |blanks| ==> IsBlank(blanks[i])
    ensures Submit(TeamForm(name, tag, filled + blanks), true, Some(id)).Created?
    ensures Submit(TeamForm(name, tag, filled + blanks), true, Some(id)).record.players == filled
  {
    FilterKeepsAll(filled, IsFilled);
    FilterKeepsNone(blanks, IsFilled);
    FilterConcat(filled, blanks, IsFilled);
  }

  /** The dialog after a submission: a created team resets the form and closes the
      dialog; any refusal or failure leaves the form as it was. Either way the
      dialog is no longer loading. */
  function AfterSubmit(d: Dialog, r: Submission): (d': Dialog)
    ensures !d'.loading
    ensures r.Created? ==> d'.form == EmptyForm && !d'.open
    ensures !r.Created? ==> d'.form == d.form && d'.open == d.open
  {
    if r.Created? then Dialog(EmptyForm, false, false) else d.(loading := false)
  }

  /** `handleClose`: ignored while a submission is in flight; otherwise the form is
      reset and the dialog closes. */
  function HandleClose(d: Dialog): (d': Dialog)
    ensures d.loading ==> d' == d
    ensures !d.loading ==> d'.form == EmptyForm && !d'.open
  {
    if d.loading then d else d.(form := EmptyForm, open := false)
  }

  /** The reset form offers five empty slots and cannot be submitted as it is. */
  lemma EmptyFormRefused(signedIn: bool, profileId: Option<string>)
    ensures |EmptyForm.players| == PlayerSlots
    ensures signedIn ==> Submit(EmptyForm, signedIn, profileId) == Rejected(NameRequired)
  {
    assert IsBlank(EmptyForm.name);
  }
}
