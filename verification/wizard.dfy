/**
 * The five-step post-listing wizard: step navigation, the per-step gate on the
 * Next button, the photo list capped at eight, and the checks and records of
 * publishing (insert for a new listing, update when editing).
 */
module PostWizard {
  import opened Wrappers
  import opened Text
  import opened Seqs

  /** An uploaded file; its contents are opaque to the wizard. */
  datatype Photo = Photo(name: string)

  /** The form fields, all kept as the text the inputs hold. */
  datatype Form = Form(
    category: string,
    title: string,
    description: string,
    condition: string,
    price: string,
    location: string,
    photos: seq<Photo>)

  /** The wizard: current step, form, and the `edit` URL parameter naming the listing being edited. */
  datatype Wizard = Wizard(step: int, form: Form, editId: Option<string>)

  const StepCount := 5
  const MaxPhotos := 8

  predicate IsEditing(w: Wizard) {
    w.editId.Some? && w.editId.value != []
  }

  predicate ValidStep(step: int) {
    1 <= step <= StepCount
  }

  function EmptyForm(): Form {
    Form([], [], [], [], [], [], [])
  }

  /** The wizard as the page first renders it: step 1, every field empty, no photo. */
  function Start(editId: Option<string>): (w: Wizard)
    ensures ValidStep(w.step) && w.step == 1
    ensures w.form == EmptyForm() && w.form.photos == [] && w.form.title == []
    ensures w.editId == editId
  {
    Wizard(1, EmptyForm(), editId)
  }

  /** `nextStep`: one step forward, a no-op on the last step. */
  function NextStep(w: Wizard): (r: Wizard)
    ensures ValidStep(w.step) ==> ValidStep(r.step)
    ensures w.step >= StepCount ==> r == w
    ensures w.step < StepCount ==> r.step == w.step + 1
    ensures r.form == w.form && r.editId == w.editId
  {
    if w.step < StepCount then w.(step := w.step + 1) else w
  }

  /** `prevStep`: one step back, a no-op on the first step. */
  function PrevStep(w: Wizard): (r: Wizard)
    ensures ValidStep(w.step) ==> ValidStep(r.step)
    ensures w.step <= 1 ==> r == w
    ensures w.step > 1 ==> r.step == w.step - 1
    ensures r.form == w.form && r.editId == w.editId
  {
    if w.step > 1 then w.(step := w.step - 1) else w
  }

  /** Previous undoes Next everywhere except on the last step, where Next does nothing. */
  lemma PrevUndoesNext(w: Wizard)
    requires 1 <= w.step < StepCount
    ensures PrevStep(NextStep(w)) == w
  {
  }

  /** `canProceed`: the gate on the current step's Next (or Publish) button. */
  predicate CanProceed(w: Wizard) {
    var f := w.form;
    match w.step
    case 1 => f.category != [] && !IsBlank(f.title)
    case 2 => !IsBlank(f.description) && f.condition != [] && f.price != []
    case 3 => |f.photos| > 0 || IsEditing(w)
    case 4 => !IsBlank(f.location)
    case _ => true
  }

  /** Pressing Next: the button is only enabled when the gate is open. */
  function PressNext(w: Wizard): (r: Wizard)
    ensures ValidStep(w.step) ==> ValidStep(r.step)
    ensures r.step == w.step + 1 <==> w.step < StepCount && CanProceed(w)
    ensures !CanProceed(w) ==> r == w
    ensures r.form == w.form && r.editId == w.editId
  {
    if CanProceed(w) then NextStep(w) else w
  }

  /** A title of nothing but white space keeps the wizard on step 1. */
  lemma BlankTitleHoldsStepOne(w: Wizard)
    requires w.step == 1 && AllSpace(w.form.title)
    ensures PressNext(w) == w
  {
  }

  /** Step 3 without photos lets only an edit through. */
  lemma PhotosOptionalOnlyWhenEditing(w: Wizard)
    requires w.step == 3 && w.form.photos == []
    ensures PressNext(w).step == 4 <==> IsEditing(w)
  {
  }

  /** `handleFileUpload`: append the chosen files, dropping any beyond the eight-photo cap. */
  function AddFiles(w: Wizard, files: Option<seq<Photo>>): (r: Wizard)
    ensures |w.form.photos| <= |r.form.photos|
    ensures r.form.photos[..|w.form.photos|] == w.form.photos
    ensures |w.form.photos| <= MaxPhotos ==> |r.form.photos| <= MaxPhotos
    ensures files.None? ==> r == w
    ensures files.Some? ==> |r.form.photos| - |w.form.photos| <= |files.value|
    ensures files.Some? ==>
              r.form.photos == w.form.photos + files.value[..|r.form.photos| - |w.form.photos|]
    ensures |w.form.photos| <= MaxPhotos && files.Some? ==>
              |r.form.photos| == if |w.form.photos| + |files.value| <= MaxPhotos
                                 then |w.form.photos| + |files.value| else MaxPhotos
    ensures r.step == w.step && r.editId == w.editId
    ensures r.form.(photos := w.form.photos) == w.form
  {
    match files
    case None => w
    case Some(fs) =>
      var added := Slice(fs, 0, MaxPhotos - |w.form.photos|);
      var r := w.(form := w.form.(photos := w.form.photos + added));
      assert r.form.photos[..|w.form.photos|] == w.form.photos;
      r
  }

  /** `removePhoto(i)`: drop the photo at position `i`; other positions are a no-op. */
  function RemovePhoto(w: Wizard, i: int): (r: Wizard)
    ensures 0 <= i < |w.form.photos| ==>
              |r.form.photos| == |w.form.photos| - 1 &&
              (forall k :: 0 <= k < i ==> r.form.photos[k] == w.form.photos[k]) &&
              (forall k :: i <= k < |r.form.photos| ==> r.form.photos[k] == w.form.photos[k + 1])
    ensures !(0 <= i < |w.form.photos|) ==> r == w
    ensures r.step == w.step && r.editId == w.editId
    ensures r.form.(photos := w.form.photos) == w.form
  {
    w.(form := w.form.(photos := DropIndex(w.form.photos, i)))
  }

  /** A chosen category or condition id, or `null` when none was chosen. */
  function NullIfEmpty(s: string): (r: Option<string>)
    ensures r.None? <==> s == []
  {
    if s == [] then None else Some(s)
  }

  /** The listing columns both publishing paths write. */
  datatype ListingFields = ListingFields(
    title: string,
    description: string,
    categoryId: Option<string>,
    conditionId: Option<string>,
    price: int,
    location: string)

  /**
   * `file.name.split('.').pop()`: the text after the last dot of `name`, or the
   * whole name when it has no dot.
   */
  function FileExt(name: string): (r: string)
    ensures |r| <= |name| && r == name[|name| - |r|..]
    ensures forall k :: 0 <= k < |r| ==> r[k] != '.'
    ensures |r| < |name| ==> name[|name| - |r| - 1] == '.'
  {
    if name == [] || name[|name| - 1] == '.' then []
    else FileExt(name[..|name| - 1]) + [name[|name| - 1]]
  }

  /**
   * The storage path `uploadImages` gives the photo at position `index`:
   * `user/listing/<time>-index.ext`. The upload time is left to the `publicUrl`
   * parameter, which maps a path to the URL `getPublicUrl` returns.
   */
  datatype StoragePath = StoragePath(user: string, listingId: string, index: nat, ext: string)

  /** The paths of all photos, one per position. */
  function UploadPaths(user: string, listingId: string, photos: seq<Photo>): (r: seq<StoragePath>)
    ensures |r| == |photos|
    ensures forall i :: 0 <= i < |photos| ==> r[i].user == user && r[i].listingId == listingId && r[i].index == i
    ensures forall i :: 0 <= i < |photos| ==> r[i].ext == FileExt(photos[i].name)
  {
    seq(|photos|, i requires 0 <= i < |photos| => StoragePath(user, listingId, i, FileExt(photos[i].name)))
  }

  /** Two photos never share a path, even when the files have the same name. */
  lemma UploadPathsDistinct(user: string, listingId: string, photos: seq<Photo>, i: int, j: int)
    requires 0 <= i < |photos| && 0 <= j < |photos| && i != j
    ensures UploadPaths(user, listingId, photos)[i] != UploadPaths(user, listingId, photos)[j]
  {
  }

  datatype PublishOutcome =
    | SignInRequired
    | MissingInformation
    | InvalidPrice
      /**
       * The update of the edited listing, filtered on `owner` as well as on the id;
       * `images` is present only when new photos were uploaded.
       */
    | Updated(listingId: string, owner: string, fields: ListingFields, images: Option<seq<string>>)
      /**
       * The insert of a new listing owned by `owner`, followed, when photos were
       * chosen, by an image update of the id the insert returned (`listingId`).
       */
    | Inserted(listingId: string, owner: string, fields: ListingFields, status: string, images: Option<seq<string>>)

  /**
   * `handlePublish`. `parsePrice` stands for `parseFloat` (None for NaN), `newId`
   * for the id the insert returns and `publicUrl` for the public URL of an uploaded path.
   */
  function Publish(w: Wizard, user: Option<string>, parsePrice: string -> Option<int>, newId: string,
                   publicUrl: StoragePath -> string): (r: PublishOutcome)
    ensures user.None? <==> r == SignInRequired
    ensures r == MissingInformation <==>
              user.Some? && (w.form.title == [] || w.form.description == [] || w.form.price == [])
    ensures r == InvalidPrice <==>
              user.Some? && w.form.title != [] && w.form.description != [] && w.form.price != [] &&
              parsePrice(w.form.price).None?
    ensures r.Updated? || r.Inserted? ==>
              parsePrice(w.form.price) == Some(r.fields.price) &&
              r.fields.title == w.form.title && r.fields.description == w.form.description &&
              r.fields.location == w.form.location
    ensures r.Updated? || r.Inserted? ==> (r.Updated? <==> IsEditing(w))
    ensures r.Updated? || r.Inserted? ==> r.owner == user.value
    ensures r.Updated? ==> r.listingId == w.editId.value
    ensures r.Inserted? ==> !IsEditing(w) && r.listingId == newId && r.status == "draft"
    ensures r.Updated? || r.Inserted? ==>
              r.fields.categoryId == NullIfEmpty(w.form.category) &&
              r.fields.conditionId == NullIfEmpty(w.form.condition)
    ensures r.Updated? || r.Inserted? ==>
              (r.images.Some? <==> |w.form.photos| > 0) &&
              (r.images.Some? ==> |r.images.value| == |w.form.photos|) &&
              (r.images.Some? ==> forall i :: 0 <= i < |w.form.photos| ==>
                 r.images.value[i] == publicUrl(StoragePath(user.value, r.listingId, i, FileExt(w.form.photos[i].name))))
  {
    var f := w.form;
    if user.None? then SignInRequired
    else if f.title == [] || f.description == [] || f.price == [] then MissingInformation
    else
      match parsePrice(f.price)
      case None => InvalidPrice
      case Some(price) =>
        var fields := ListingFields(f.title, f.description, NullIfEmpty(f.category),
                                    NullIfEmpty(f.condition), price, f.location);
        var target := if IsEditing(w) then w.editId.value else newId;
        var paths := UploadPaths(user.value, target, f.photos);
        var urls := seq(|paths|, i requires 0 <= i < |paths| => publicUrl(paths[i]));
        var images := if |urls| > 0 then Some(urls) else None;
        if IsEditing(w) then Updated(target, user.value, fields, images)
        else Inserted(target, user.value, fields, "draft", images)
  }

  /** A stored listing as the edit query reads it; nullable columns are `Option`s. */
  datatype StoredListing = StoredListing(
    id: string,
    owner: string,
    categoryId: Option<string>,
    title: Option<string>,
    description: Option<string>,
    conditionId: Option<string>,
    priceText: Option<string>,
    location: Option<string>)

  /** `value || ""` on a nullable text column. */
  function OrEmpty(o: Option<string>): (r: string)
    ensures o.Some? ==> r == o.value
    ensures o.None? ==> r == []
  {
    if o.Some? then o.value else []
  }

  /** The edit query's filter: the listing with this id that belongs to this user. */
  function OwnedListing(id: string, user: string): StoredListing -> bool {
    (l: StoredListing) => l.id == id && l.owner == user
  }

  datatype LoadOutcome =
    | LoadSkipped
      /** The query did not return exactly one row: the page goes back to the dashboard. */
    | LoadRedirected
    | LoadedForm(form: Form)

  /**
   * `loadListingForEdit`, run by the effect only while editing and signed in. The
   * query selects by id and by owner and ends in `.single()`, which fails unless
   * exactly one row matches; a failure redirects. A loaded form copies the stored
   * columns, with `""` for null, and starts without photos.
   */
  function LoadForEdit(rows: seq<StoredListing>, editId: Option<string>, user: Option<string>): (r: LoadOutcome)
    ensures r.LoadSkipped? <==> editId.None? || editId.value == [] || user.None?
    ensures r.LoadedForm? ==>
              var k := FirstIndex(rows, OwnedListing(editId.value, user.value));
              k < |rows| && rows[k].owner == user.value && rows[k].id == editId.value &&
              r.form == Form(OrEmpty(rows[k].categoryId), OrEmpty(rows[k].title), OrEmpty(rows[k].description),
                             OrEmpty(rows[k].conditionId), OrEmpty(rows[k].priceText), OrEmpty(rows[k].location), [])
  {
    if editId.None? || editId.value == [] || user.None? then LoadSkipped
    else
      var matches := Filter(rows, OwnedListing(editId.value, user.value));
      if |matches| != 1 then LoadRedirected
      else
        var k := FirstIndex(rows, OwnedListing(editId.value, user.value));
        FilterFindsFirst(rows, OwnedListing(editId.value, user.value));
        var l := rows[k];
        LoadedForm(Form(OrEmpty(l.categoryId), OrEmpty(l.title), OrEmpty(l.description),
                        OrEmpty(l.conditionId), OrEmpty(l.priceText), OrEmpty(l.location), []))
  }

  /**
   * Someone who does not own the listing, an administrator included, is sent back
   * to the dashboard and never gets the form.
   */
  lemma ForeignListingRedirects(rows: seq<StoredListing>, id: string, user: string)
    requires id != []
    requires forall i :: 0 <= i < |rows| && rows[i].id == id ==> rows[i].owner != user
    ensures LoadForEdit(rows, Some(id), Some(user)) == LoadRedirected
  {
    FilterNone(rows, OwnedListing(id, user));
  }

  /** The owner of exactly one listing with that id gets the form filled from it. */
  lemma OwnListingLoads(rows: seq<StoredListing>, id: string, user: string, k: int)
    requires id != [] && 0 <= k < |rows| && rows[k].id == id && rows[k].owner == user
    requires forall i :: 0 <= i < |rows| && i != k ==> !(rows[i].id == id && rows[i].owner == user)
    ensures LoadForEdit(rows, Some(id), Some(user)).LoadedForm?
    ensures LoadForEdit(rows, Some(id), Some(user)).form.title == OrEmpty(rows[k].title)
  {
    FilterExactlyOne(rows, OwnedListing(id, user), k);
  }

  /**
   * A form that opened the gates of steps 1 and 2 is never refused for missing
   * information: the gates demand non-blank text, the publish check only non-empty text.
   */
  lemma GatesImplyComplete(w: Wizard, user: string, parsePrice: string -> Option<int>, newId: string,
                           publicUrl: StoragePath -> string)
    requires CanProceed(w.(step := 1)) && CanProceed(w.(step := 2))
    ensures Publish(w, Some(user), parsePrice, newId, publicUrl) != MissingInformation
  {
    assert Trim(w.form.title) != [];
    assert Trim(w.form.description) != [];
  }
}
