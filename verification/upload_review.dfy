/** The screenshot review screen: uploaded images move from processing to
    completed as the (simulated) recognition step reports progress; the
    organiser can remove or reprocess an image, correct a recognised result,
    and export every recognised result tagged with its game number. */
module UploadReview {
  import opened Optional
  import opened AsciiText
  import opened Sequences

  datatype Status = Uploading | Processing | Completed | Error

  /** The browser `File` object, reduced to what the screen reads of it. */
  datatype UploadFile = UploadFile(name: string, mimeType: string)

  datatype TeamResult = TeamResult(
    id: string, teamName: string, placement: int, kills: int, points: int,
    confidence: real, isEdited: bool)

  datatype Image = Image(
    id: string, file: UploadFile, status: Status, progress: real,
    ocrResults: Option<seq<TeamResult>>, gameNumber: int)

  /** The image list and the id of the image shown in the detail panel. */
  datatype Review = Review(images: seq<Image>, selected: Option<string>)

  /** The three fields of a result the detail panel edits. */
  datatype ResultEdit = SetPlacement(placement: int) | SetKills(kills: int) | SetPoints(points: int)

  /** One exported row: a result with its image's game number. */
  datatype ExportRow = ExportRow(result: TeamResult, gameNumber: int)

  /** The fixed list the simulated recognition attaches to every image. */
  const MockResults: seq<TeamResult> := [
    TeamResult("1", "Thunder Wolves", 1, 8, 15, 0.95, false),
    TeamResult("2", "Cyber Eagles", 2, 6, 12, 0.92, false),
    TeamResult("3", "Neon Hunters", 3, 5, 10, 0.88, false),
    TeamResult("4", "Storm Riders", 4, 4, 8, 0.85, false),
    TeamResult("5", "Shadow Force", 5, 3, 6, 0.90, false),
    TeamResult("6", "Fire Phoenix", 6, 2, 4, 0.82, false),
    TeamResult("7", "Ice Wolves", 7, 1, 2, 0.78, false),
    TeamResult("8", "Dark Knights", 8, 0, 1, 0.75, false)
  ]

  /** The lifecycle every image keeps: still processing, with progress below 100 and
      no results; or completed, with progress exactly 100 and results attached. */
  predicate WellFormed(img: Image) {
    || (img.status == Processing && 0.0 <= img.progress < 100.0 && img.ocrResults.None?)
    || (img.status == Completed && img.progress == 100.0 && img.ocrResults.Some?)
  }

  predicate AllWellFormed(images: seq<Image>) {
    forall i :: 0 <= i < |images| ==> WellFormed(images[i])
  }

  /** `handleDrop`'s filter: the dropped files whose MIME type starts with "image/". */
  function DropFilter(files: seq<UploadFile>): (r: seq<UploadFile>)
    ensures forall i :: 0 <= i < |r| ==> StartsWith(r[i].mimeType, "image/")
  {
    Filter(files, IsImageFile)
  }

  function IsImageFile(f: UploadFile): bool {
    StartsWith(f.mimeType, "image/")
  }

  /** The drop filter keeps exactly the image files, in their order. */
  lemma DropFilterExact(files: seq<UploadFile>)
    ensures forall f :: f in DropFilter(files) <==> f in files && StartsWith(f.mimeType, "image/")
    ensures IsSubsequence(DropFilter(files), files)
    ensures forall f :: multiset(DropFilter(files))[f] == if IsImageFile(f) then multiset(files)[f] else 0
  {
    FilterMembers(files, IsImageFile);
    FilterCounts(files, IsImageFile);
    FilterIsSubsequence(files, IsImageFile);
  }

  function NewImage(id: string, file: UploadFile, gameNumber: int): Image {
    Image(id, file, Processing, 0.0, None, gameNumber)
  }

  /** `handleFiles`: one new image per file, appended in order, each processing at
      progress 0. Every image of the batch gets the game number the list length
      before the call plus one. `ids` stands for the generated
      `Date.now() + Math.random()` identifiers, one per file. */
  function HandleFiles(images: seq<Image>, files: seq<UploadFile>, ids: seq<string>): (r: seq<Image>)
    requires |ids| == |files|
    ensures |r| == |images| + |files|
    ensures r[..|images|] == images
    ensures forall k :: 0 <= k < |files| ==>
      && r[|images| + k].id == ids[k]
      && r[|images| + k].file == files[k]
      && r[|images| + k].status == Processing
      && r[|images| + k].progress == 0.0
      && r[|images| + k].ocrResults.None?
      && r[|images| + k].gameNumber == |images| + 1
  {
    images + seq(|files|, k requires 0 <= k < |files| => NewImage(ids[k], files[k], |images| + 1))
  }

  /** Every image of one batch carries the same game number. */
  lemma BatchSharesGameNumber(images: seq<Image>, files: seq<UploadFile>, ids: seq<string>, j: int, k: int)
    requires |ids| == |files|
    requires |images| <= j < |images| + |files| && |images| <= k < |images| + |files|
    ensures HandleFiles(images, files, ids)[j].gameNumber == HandleFiles(images, files, ids)[k].gameNumber
  {
    var r := HandleFiles(images, files, ids);
    assert r[|images| + (j - |images|)].gameNumber == |images| + 1;
    assert r[|images| + (k - |images|)].gameNumber == |images| + 1;
  }

  lemma HandleFilesKeepsWellFormed(images: seq<Image>, files: seq<UploadFile>, ids: seq<string>)
    requires |ids| == |files| && AllWellFormed(images)
    ensures AllWellFormed(HandleFiles(images, files, ids))
  {
    var r := HandleFiles(images, files, ids);
    forall i | 0 <= i < |r| ensures WellFormed(r[i]) {
      if i < |images| {
        assert r[i] == r[..|images|][i];
      } else {
        assert r[|images| + (i - |images|)].status == Processing;
      }
    }
  }

  /** `handleDrop` as written: the handler is memoised once, so the `handleFiles` it
      calls still sees the image list of the first render, which is empty. The new
      images are appended to the current list but numbered as game 1. */
  function HandleDropAsWritten(images: seq<Image>, files: seq<UploadFile>, ids: seq<string>): (r: seq<Image>)
    requires |ids| == |DropFilter(files)|
    ensures |r| == |images| + |DropFilter(files)|
    ensures forall k :: |images| <= k < |r| ==> r[k].gameNumber == 1
  {
    var dropped := DropFilter(files);
    images + seq(|dropped|, k requires 0 <= k < |dropped| => NewImage(ids[k], dropped[k], 1))
  }

  /** Dropping an image onto a list that already holds one numbers it game 1 again,
      where the file picker would number it game 2. */
  lemma DropRepeatsFirstGameNumber(img: Image, f: UploadFile, id: string)
    requires StartsWith(f.mimeType, "image/")
    ensures HandleDropAsWritten([img], [f], [id])[1].gameNumber == 1
    ensures HandleFiles([img], [f], [id])[1].gameNumber == 2
  {
    FilterSingleton(f, IsImageFile);
  }

  /** `handleDrop` as intended: the image files among the dropped ones, added exactly
      as the file picker adds them. */
  function HandleDrop(images: seq<Image>, files: seq<UploadFile>, ids: seq<string>): (r: seq<Image>)
    requires |ids| == |DropFilter(files)|
    ensures |r| == |images| + |DropFilter(files)|
    ensures r[..|images|] == images
    ensures forall k :: |images| <= k < |r| ==>
      r[k].gameNumber == |images| + 1 && r[k].status == Processing && StartsWith(r[k].file.mimeType, "image/")
    ensures forall k :: 0 <= k < |ids| ==>
      && r[|images| + k].id == ids[k]
      && r[|images| + k].file == DropFilter(files)[k]
      && r[|images| + k].progress == 0.0
      && r[|images| + k].ocrResults.None?
  {
    var r := HandleFiles(images, DropFilter(files), ids);
    assert forall k :: |images| <= k < |r| ==> r[k] == r[|images| + (k - |images|)];
    r
  }

  /** The drop handler numbers its batch like the file picker exactly when the list
      was empty before the drop. */
  lemma DropAgreesOnlyOnEmptyList(images: seq<Image>, files: seq<UploadFile>, ids: seq<string>)
    requires |ids| == |DropFilter(files)| && |DropFilter(files)| > 0
    ensures HandleDropAsWritten(images, files, ids) == HandleDrop(images, files, ids) <==> images == []
  {
    var a, b := HandleDropAsWritten(images, files, ids), HandleDrop(images, files, ids);
    if images != [] {
      assert a[|images|].gameNumber != b[|images|].gameNumber;
    } else {
      assert forall k :: 0 <= k < |a| ==> a[k] == b[k];
    }
  }

  /** The image state after one tick of the recognition timer for `id`. */
  function TickImage(img: Image, id: string, total: real): Image {
    if img.id != id then img
    else if total >= 100.0 then img.(status := Completed, progress := 100.0, ocrResults := Some(MockResults))
    else img.(progress := total)
  }

  /** One tick of `simulateOCR`'s timer: `acc` is the progress accumulated so far and
      `step` the random increment (`Math.random() * 20`). At 100 or more the image
      completes with progress exactly 100 and the results attached; below, only its
      progress moves. Returns the images and the new accumulated progress. */
  function OcrTick(images: seq<Image>, id: string, acc: real, step: real): (r: (seq<Image>, real))
    ensures |r.0| == |images|
    ensures acc + step >= 100.0 ==> r.1 == 100.0
    ensures acc + step < 100.0 ==> r.1 == acc + step
    ensures forall i :: 0 <= i < |images| && images[i].id != id ==> r.0[i] == images[i]
    ensures acc + step >= 100.0 ==> forall i :: 0 <= i < |images| && images[i].id == id ==>
      && r.0[i].status == Completed && r.0[i].progress == 100.0 && r.0[i].ocrResults == Some(MockResults)
      && r.0[i].id == id && r.0[i].file == images[i].file && r.0[i].gameNumber == images[i].gameNumber
    ensures acc + step < 100.0 ==> forall i :: 0 <= i < |images| ==>
      r.0[i] == images[i].(progress := if images[i].id == id then acc + step else images[i].progress)
  {
    var total := acc + step;
    (seq(|images|, i requires 0 <= i < |images| => TickImage(images[i], id, total)),
     if total >= 100.0 then 100.0 else total)
  }

  /** A tick keeps every image well formed, provided the ticking image is still
      processing (the timer is cleared on completion) and the increment is non-negative. */
  lemma OcrTickKeepsWellFormed(images: seq<Image>, id: string, acc: real, step: real)
    requires AllWellFormed(images)
    requires 0.0 <= acc && 0.0 <= step
    requires forall i :: 0 <= i < |images| && images[i].id == id ==> images[i].status == Processing
    ensures AllWellFormed(OcrTick(images, id, acc, step).0)
  {
  }

  /** `removeImage`: drops exactly the images with that id, keeping the order of the
      rest, and clears the selection exactly when the selected image had that id. */
  function RemoveImage(rv: Review, id: string): (r: Review)
    ensures forall img :: img in r.images <==> img in rv.images && img.id != id
    ensures IsSubsequence(r.images, rv.images)
    ensures forall img :: multiset(r.images)[img] == if img.id != id then multiset(rv.images)[img] else 0
    ensures r.selected.None? <==> rv.selected.None? || rv.selected == Some(id)
    ensures r.selected.Some? ==> r.selected == rv.selected
  {
    var keep := (img: Image) => img.id != id;
    FilterMembers(rv.images, keep);
    FilterIsSubsequence(rv.images, keep);
    FilterCounts(rv.images, keep);
    Review(Filter(rv.images, keep), if rv.selected == Some(id) then None else rv.selected)
  }

  lemma RemoveImageKeepsWellFormed(rv: Review, id: string)
    requires AllWellFormed(rv.images)
    ensures AllWellFormed(RemoveImage(rv, id).images)
  {
    var r := RemoveImage(rv, id).images;
    forall i | 0 <= i < |r| ensures WellFormed(r[i]) {
      assert r[i] in rv.images;
    }
  }

  function ResetImage(img: Image, id: string): Image {
    if img.id == id then img.(status := Processing, progress := 0.0, ocrResults := None) else img
  }

  /** `reprocessImage`: the images with that id go back to processing at progress 0
      with their results dropped; every other image is unchanged. */
  function ReprocessImage(images: seq<Image>, id: string): (r: seq<Image>)
    ensures |r| == |images|
    ensures forall i :: 0 <= i < |images| && images[i].id != id ==> r[i] == images[i]
    ensures forall i :: 0 <= i < |images| && images[i].id == id ==>
      && r[i].status == Processing && r[i].progress == 0.0 && r[i].ocrResults.None?
      && r[i].id == id && r[i].file == images[i].file && r[i].gameNumber == images[i].gameNumber
    ensures AllWellFormed(images) ==> AllWellFormed(r)
  {
    seq(|images|, i requires 0 <= i < |images| => ResetImage(images[i], id))
  }

  function ApplyEdit(res: TeamResult, edit: ResultEdit): TeamResult {
    match edit
    case SetPlacement(v) => res.(placement := v, isEdited := true)
    case SetKills(v) => res.(kills := v, isEdited := true)
    case SetPoints(v) => res.(points := v, isEdited := true)
  }

  function EditResults(results: seq<TeamResult>, resultId: string, edit: ResultEdit): (r: seq<TeamResult>)
    ensures |r| == |results|
  {
    seq(|results|, j requires 0 <= j < |results| =>
      if results[j].id == resultId then ApplyEdit(results[j], edit) else results[j])
  }

  function EditImage(img: Image, imageId: string, resultId: string, edit: ResultEdit): Image {
    if img.id != imageId then img
    else match img.ocrResults
      case None => img
      case Some(rs) => img.(ocrResults := Some(EditResults(rs, resultId, edit)))
  }

  /** `updateResult`: inside the images with id `imageId`, the results with id `resultId`
      take the new field value and are marked edited; nothing else changes, and an
      image without results stays without results. */
  function UpdateResult(images: seq<Image>, imageId: string, resultId: string, edit: ResultEdit): (r: seq<Image>)
    ensures |r| == |images|
    ensures forall i :: 0 <= i < |images| ==>
      && r[i].id == images[i].id && r[i].file == images[i].file && r[i].status == images[i].status
      && r[i].progress == images[i].progress && r[i].gameNumber == images[i].gameNumber
      && r[i].ocrResults.None? == images[i].ocrResults.None?
    ensures forall i :: 0 <= i < |images| && (images[i].id != imageId || images[i].ocrResults.None?) ==>
      r[i] == images[i]
    ensures forall i :: 0 <= i < |images| && images[i].id == imageId && images[i].ocrResults.Some? ==>
      ResultsEdited(images[i].ocrResults.value, r[i].ocrResults.value, resultId, edit)
  {
    seq(|images|, i requires 0 <= i < |images| => EditImage(images[i], imageId, resultId, edit))
  }

  /** `after` is `before` with exactly the results carrying `resultId` edited; every
      other result is unchanged. */
  predicate ResultsEdited(before: seq<TeamResult>, after: seq<TeamResult>, resultId: string, edit: ResultEdit) {
    && |after| == |before|
    && (forall j :: 0 <= j < |before| && before[j].id != resultId ==> after[j] == before[j])
    && (forall j :: 0 <= j < |before| && before[j].id == resultId ==> EditedFrom(before[j], after[j], edit))
  }

  /** `after` is `before` with the edited field holding the new value and marked
      edited; its id, team name, confidence and the two other numbers are kept. */
  predicate EditedFrom(before: TeamResult, after: TeamResult, edit: ResultEdit) {
    && after.isEdited
    && after.id == before.id && after.teamName == before.teamName && after.confidence == before.confidence
    && EditedField(after, edit)
    && (!edit.SetPlacement? ==> after.placement == before.placement)
    && (!edit.SetKills? ==> after.kills == before.kills)
    && (!edit.SetPoints? ==> after.points == before.points)
  }

  /** The description of an edited result leaves exactly one result possible. */
  lemma EditedFromDeterminesResult(before: TeamResult, after: TeamResult, edit: ResultEdit)
    ensures EditedFrom(before, after, edit) <==> after == ApplyEdit(before, edit)
  {
  }

  /** The edited field holds the value the edit carries. */
  predicate EditedField(res: TeamResult, edit: ResultEdit) {
    match edit
    case SetPlacement(v) => res.placement == v
    case SetKills(v) => res.kills == v
    case SetPoints(v) => res.points == v
  }

  lemma UpdateResultKeepsWellFormed(images: seq<Image>, imageId: string, resultId: string, edit: ResultEdit)
    requires AllWellFormed(images)
    ensures AllWellFormed(UpdateResult(images, imageId, resultId, edit))
  {
  }

  /** The detail panel's numeric inputs: `parseInt(text) || fallback`. `parsed` is what
      `parseInt` returns, `None` standing for NaN; NaN and 0 both fall back. Placement
      falls back to 1, kills and points to 0. */
  function EditFromInput(field: ResultEdit, parsed: Option<int>): (e: ResultEdit)
    ensures e.SetPlacement? == field.SetPlacement? && e.SetKills? == field.SetKills?
    ensures e.SetPlacement? ==> e.placement != 0
    ensures parsed.Some? && parsed.value != 0 ==> EditedValue(e) == parsed.value
    ensures (parsed.None? || parsed == Some(0)) ==> EditedValue(e) == if e.SetPlacement? then 1 else 0
  {
    var v := if parsed.None? || parsed.value == 0 then (if field.SetPlacement? then 1 else 0) else parsed.value;
    match field
    case SetPlacement(_) => SetPlacement(v)
    case SetKills(_) => SetKills(v)
    case SetPoints(_) => SetPoints(v)
  }

  function EditedValue(e: ResultEdit): int {
    match e
    case SetPlacement(v) => v
    case SetKills(v) => v
    case SetPoints(v) => v
  }

  /** The badge text of an image's status. */
  function StatusLabel(s: Status): (text: string)
    ensures text == "Processando" <==> s == Processing
    ensures text == "Concluído" <==> s == Completed
    ensures text == "Erro" <==> s == Error
    ensures text == "Enviando" <==> s == Uploading
  {
    match s
    case Processing => "Processando"
    case Completed => "Concluído"
    case Error => "Erro"
    case Uploading => "Enviando"
  }

  function ResultCount(img: Image): int {
    match img.ocrResults
    case None => 0
    case Some(rs) => |rs|
  }

  function Tag(rs: seq<TeamResult>, gameNumber: int): (r: seq<ExportRow>)
    ensures |r| == |rs|
    ensures forall j :: 0 <= j < |rs| ==> r[j] == ExportRow(rs[j], gameNumber)
  {
    seq(|rs|, j requires 0 <= j < |rs| => ExportRow(rs[j], gameNumber))
  }

  /** `exportResults`: for every image that has results, in image order, its results
      tagged with its game number. */
  function Export(images: seq<Image>): (r: seq<ExportRow>)
    ensures |r| == Sum(images, ResultCount)
  {
    if images == [] then []
    else
      (match images[0].ocrResults
       case None => []
       case Some(rs) => Tag(rs, images[0].gameNumber))
      + Export(images[1..])
  }

  /** Exporting two lists one after the other exports their concatenation. */
  lemma {:induction false} ExportConcat(a: seq<Image>, b: seq<Image>)
    ensures Export(a + b) == Export(a) + Export(b)
  {
    if a == [] {
      assert a + b == b;
    } else {
      assert (a + b)[0] == a[0];
      assert (a + b)[1..] == a[1..] + b;
      ExportConcat(a[1..], b);
    }
  }

  /** A single image exports its own results, tagged with its game number and in their
      order, or nothing when it has none; with `ExportConcat` this fixes every export. */
  lemma ExportSingle(img: Image)
    ensures Export([img]) == if img.ocrResults.Some? then Tag(img.ocrResults.value, img.gameNumber) else []
  {
    assert [img][1..] == [];
  }

  /** A row is exported exactly when its result belongs to some image's results and it
      carries that image's game number. */
  lemma {:induction false} ExportMembers(images: seq<Image>, row: ExportRow)
    ensures row in Export(images) <==>
      exists i :: 0 <= i < |images| && images[i].ocrResults.Some?
        && row.result in images[i].ocrResults.value && row.gameNumber == images[i].gameNumber
  {
    if images != [] {
      ExportMembers(images[1..], row);
      var head := match images[0].ocrResults case None => [] case Some(rs) => Tag(rs, images[0].gameNumber);
      assert Export(images) == head + Export(images[1..]);
      if row in head {
        var j :| 0 <= j < |head| && head[j] == row;
        assert row.result == images[0].ocrResults.value[j];
      }
      if exists i :: 0 <= i < |images| && images[i].ocrResults.Some?
          && row.result in images[i].ocrResults.value && row.gameNumber == images[i].gameNumber {
        var i :| 0 <= i < |images| && images[i].ocrResults.Some?
          && row.result in images[i].ocrResults.value && row.gameNumber == images[i].gameNumber;
        if i == 0 {
          var j :| 0 <= j < |images[0].ocrResults.value| && images[0].ocrResults.value[j] == row.result;
          assert head[j] == row;
        } else {
          assert images[1..][i - 1] == images[i];
        }
      }
    }
  }

  /** The export button shows when some image has results; without one the export is empty. */
  predicate ExportVisible(images: seq<Image>) {
    exists i :: 0 <= i < |images| && images[i].ocrResults.Some?
  }

  lemma {:induction false} NothingToExport(images: seq<Image>)
    requires !ExportVisible(images)
    ensures Export(images) == []
  {
    if images != [] {
      NothingToExport(images[1..]);
    }
  }

  /** An image with a non-empty result list shows the button and gives the export rows. */
  lemma VisibleExportsRows(images: seq<Image>, i: int)
    requires 0 <= i < |images| && images[i].ocrResults.Some? && images[i].ocrResults.value != []
    ensures ExportVisible(images)
    ensures Export(images) != []
  {
    var row := ExportRow(images[i].ocrResults.value[0], images[i].gameNumber);
    ExportMembers(images, row);
  }

  /** The button tests for a result list, not for a result: an image whose list is
      empty shows it with nothing to export. */
  lemma VisibleWithEmptyResults(img: Image)
    requires img.ocrResults == Some([])
    ensures ExportVisible([img])
    ensures Export([img]) == []
  {
    assert [img][0] == img;
  }

  /** Correcting a result never changes how many rows are exported. */
  lemma {:induction false} UpdateKeepsExportSize(images: seq<Image>, imageId: string, resultId: string, edit: ResultEdit)
    ensures |Export(UpdateResult(images, imageId, resultId, edit))| == |Export(images)|
  {
    var r := UpdateResult(images, imageId, resultId, edit);
    SameCountsSameSum(images, r);
  }

  lemma {:induction false} SameCountsSameSum(a: seq<Image>, b: seq<Image>)
    requires |a| == |b|
    requires forall i :: 0 <= i < |a| ==> ResultCount(a[i]) == ResultCount(b[i])
    ensures Sum(a, ResultCount) == Sum(b, ResultCount)
  {
    if a != [] {
      SameCountsSameSum(a[1..], b[1..]);
    }
  }
}
