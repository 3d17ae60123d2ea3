/**
 * The form that reports a defect (frontend/src/routes/AddDefect.tsx): field validation, the
 * upload of the dropped images with the flags each image carries, the gate in front of the
 * create request, and the deletion of uploaded images when the form is left without creating
 * the defect. The backend and the storage bucket are seen only through the outcomes of their
 * calls, which are parameters.
 */
module DefectForms {
  import opened Wrappers
  import opened Text
  import opened Dropzone
  import LegacyDefectControllers

  /** The form's fields; `object` is named `defectObject` here. */
  datatype FormData = FormData(
    defectObject: string, location: string, shortDescription: string, detailedDescription: string, status: string)

  const MaxShortDescription := 80

  function ObjectError(value: string): (e: string)
    ensures e == "" <==> |value| >= 1
  {
    if |value| < 1 then "Object is required" else ""
  }

  function LocationError(value: string): (e: string)
    ensures e == "" <==> |value| >= 1
  {
    if |value| < 1 then "Location is required" else ""
  }

  /** `value.length` counts UTF-16 code units. */
  function ShortDescriptionError(value: string): (e: string)
    ensures e == "" <==> Utf16Length(value) <= MaxShortDescription
  {
    if Utf16Length(value) > MaxShortDescription then "Short description must not be longer than 80 characters" else ""
  }

  /**
   * The limit is on code units: eighty characters of the Basic Multilingual Plane pass, while
   * forty-one emoji, 82 code units, are refused.
   */
  lemma ShortDescriptionUnits(plain: string, emoji: string)
    requires |plain| == MaxShortDescription && forall i :: 0 <= i < |plain| ==> plain[i] as int < 0x1_0000
    requires |emoji| == 41 && forall i :: 0 <= i < |emoji| ==> emoji[i] as int >= 0x1_0000
    ensures ShortDescriptionError(plain) == ""
    ensures ShortDescriptionError(emoji) != ""
  {
    Utf16LengthBmp(plain);
    Utf16LengthAstral(emoji);
  }

  function StatusError(value: string): (e: string)
    ensures e == "" <==> |value| >= 1
  {
    if |value| < 1 then "Status is required" else ""
  }

  /** The fields of the form, in the order `for ... in formData` visits them. */
  datatype Field = Object | Location | ShortDescription | DetailedDescription | Status

  const FormFields: seq<Field> := [Object, Location, ShortDescription, DetailedDescription, Status]

  /** The detailed description is the one field without a validator. */
  predicate HasValidator(f: Field) {
    f != DetailedDescription
  }

  /** The validator's answer for a field, or None for the unvalidated field. */
  function Check(data: FormData, f: Field): (r: Option<string>)
    ensures r.Some? <==> HasValidator(f)
  {
    match f
    case Object => Some(ObjectError(data.defectObject))
    case Location => Some(LocationError(data.location))
    case ShortDescription => Some(ShortDescriptionError(data.shortDescription))
    case Status => Some(StatusError(data.status))
    case DetailedDescription => None
  }

  /** What the form demands: object, location and status given, a short description of at most 80 code units. */
  predicate AllValid(data: FormData) {
    |data.defectObject| >= 1 && |data.location| >= 1 && Utf16Length(data.shortDescription) <= MaxShortDescription && |data.status| >= 1
  }

  /** The error record the form shows; `reportingDate` has no field and stays "". */
  datatype FormErrors = FormErrors(
    defectObject: string, location: string, shortDescription: string, status: string, reportingDate: string)

  const NoErrors := FormErrors("", "", "", "", "")

  function ErrorOf(errors: FormErrors, f: Field): string {
    match f
    case Object => errors.defectObject
    case Location => errors.location
    case ShortDescription => errors.shortDescription
    case Status => errors.status
    case DetailedDescription => ""
  }

  function WithError(errors: FormErrors, f: Field, e: string): (r: FormErrors)
    ensures HasValidator(f) ==> ErrorOf(r, f) == e
    ensures forall g :: g != f ==> ErrorOf(r, g) == ErrorOf(errors, g)
    ensures r.reportingDate == errors.reportingDate
  {
    match f
    case Object => errors.(defectObject := e)
    case Location => errors.(location := e)
    case ShortDescription => errors.(shortDescription := e)
    case Status => errors.(status := e)
    case DetailedDescription => errors
  }

  /** No validated field among `fs` reports an error. */
  predicate FieldsPass(data: FormData, fs: seq<Field>) {
    forall i :: 0 <= i < |fs| && HasValidator(fs[i]) ==> Check(data, fs[i]).value == ""
  }

  /** The error recorded for a field once the fields `fs` have been visited. */
  function Recorded(data: FormData, fs: seq<Field>, f: Field): string {
    if f in fs && HasValidator(f) then Check(data, f).value else ""
  }

  lemma FieldsPassStep(data: FormData, fs: seq<Field>, x: Field)
    ensures FieldsPass(data, fs + [x]) <==> FieldsPass(data, fs) && (HasValidator(x) ==> Check(data, x).value == "")
  {
    assert forall i :: 0 <= i < |fs| ==> (fs + [x])[i] == fs[i];
    assert (fs + [x])[|fs|] == x;
  }

  lemma RecordedStep(data: FormData, fs: seq<Field>, x: Field, f: Field)
    ensures Recorded(data, fs + [x], f) == if f == x && HasValidator(f) then Check(data, f).value else Recorded(data, fs, f)
  {
    assert f in fs + [x] <==> f in fs || f == x;
  }

  /** Visiting all fields checks exactly what the form demands. */
  lemma FormFieldsCover(data: FormData)
    ensures FieldsPass(data, FormFields) <==> AllValid(data)
    ensures forall f :: Recorded(data, FormFields, f) == ErrorOf(FormErrors(ObjectError(data.defectObject),
      LocationError(data.location), ShortDescriptionError(data.shortDescription), StatusError(data.status), ""), f)
  {
    assert FormFields[0] == Object && FormFields[1] == Location && FormFields[2] == ShortDescription && FormFields[4] == Status;
    forall f ensures f in FormFields {
      match f
      case Object => assert FormFields[0] == f;
      case Location => assert FormFields[1] == f;
      case ShortDescription => assert FormFields[2] == f;
      case DetailedDescription => assert FormFields[3] == f;
      case Status => assert FormFields[4] == f;
    }
  }

  /** Two error records that agree on every field and on `reportingDate` are equal. */
  lemma ErrorsExt(a: FormErrors, b: FormErrors)
    requires forall f :: ErrorOf(a, f) == ErrorOf(b, f)
    requires a.reportingDate == b.reportingDate
    ensures a == b
  {
    assert ErrorOf(a, Object) == ErrorOf(b, Object) && ErrorOf(a, Location) == ErrorOf(b, Location);
    assert ErrorOf(a, ShortDescription) == ErrorOf(b, ShortDescription) && ErrorOf(a, Status) == ErrorOf(b, Status);
  }

  /**
   * `validateAllFields`: runs the validator of each field, skipping the detailed description,
   * records every answer, and is true exactly when no field reports an error.
   */
  method ValidateAllFields(data: FormData) returns (isValid: bool, errors: FormErrors)
    ensures isValid <==> AllValid(data)
    ensures errors == FormErrors(ObjectError(data.defectObject), LocationError(data.location),
                                 ShortDescriptionError(data.shortDescription), StatusError(data.status), "")
  {
    errors := NoErrors;
    isValid := true;
    for i := 0 to |FormFields|
      invariant isValid <==> FieldsPass(data, FormFields[..i])
      invariant forall f :: ErrorOf(errors, f) == Recorded(data, FormFields[..i], f)
      invariant errors.reportingDate == ""
    {
      assert FormFields[..i + 1] == FormFields[..i] + [FormFields[i]];
      FieldsPassStep(data, FormFields[..i], FormFields[i]);
      var check := Check(data, FormFields[i]);
      if check.Some? {
        var error := check.value;
        if error != "" {
          isValid := false;
        }
        errors := WithError(errors, FormFields[i], error);
      }
      forall f | true
        ensures ErrorOf(errors, f) == Recorded(data, FormFields[..i + 1], f)
      {
        RecordedStep(data, FormFields[..i], FormFields[i], f);
      }
    }
    assert FormFields[..|FormFields|] == FormFields;
    FormFieldsCover(data);
    ErrorsExt(errors, FormErrors(ObjectError(data.defectObject), LocationError(data.location),
                                 ShortDescriptionError(data.shortDescription), StatusError(data.status), ""));
  }

  /** The upload bookkeeping of one image. */
  datatype Upload = Upload(isUploaded: bool, hasUploadError: bool, uploadUrl: string, deleteUrl: string, uploadedName: string)

  function StateOf(img: ImageFile): Upload
    reads img
  {
    Upload(img.isUploaded, img.hasUploadError, img.uploadUrl, img.deleteUrl, img.uploadedName)
  }

  function States(images: seq<ImageFile>): (us: seq<Upload>)
    reads images
    ensures |us| == |images|
    ensures forall k :: 0 <= k < |images| ==> us[k] == StateOf(images[k])
  {
    if images == [] then [] else [StateOf(images[0])] + States(images[1..])
  }

  /** The backend's answer to `/defects/signedUploadUrl/<name>`; None when the request fails. */
  datatype SignedUrls = SignedUrls(uploadUrl: string, deleteUrl: string, name: string)

  /** `fetchSignedUrl` is asked only when the image has no upload URL yet; a failed request changes nothing. */
  function AfterFetch(u: Upload, fetched: Option<SignedUrls>): Upload {
    if u.uploadUrl == "" && fetched.Some? then
      u.(uploadUrl := fetched.value.uploadUrl, deleteUrl := fetched.value.deleteUrl, uploadedName := fetched.value.name)
    else u
  }

  /** A PUT is sent for an image not yet uploaded that has an upload URL once the fetch is done. */
  predicate Attempted(u: Upload, fetched: Option<SignedUrls>) {
    !u.isUploaded && AfterFetch(u, fetched).uploadUrl != ""
  }

  /** One iteration of `uploadImages` for one image, as a change of its bookkeeping. */
  function UploadStep(u: Upload, fetched: Option<SignedUrls>, putSucceeds: bool): (r: Upload)
    ensures u.isUploaded ==> r == u
    ensures !u.isUploaded ==> (r.isUploaded <==> !r.hasUploadError)
    ensures !u.isUploaded ==> (r.isUploaded <==> Attempted(u, fetched) && putSucceeds)
  {
    if u.isUploaded then u
    else
      var v := AfterFetch(u, fetched);
      if v.uploadUrl == "" then v.(isUploaded := false, hasUploadError := true)
      else if putSucceeds then v.(isUploaded := true, hasUploadError := false)
      else v.(hasUploadError := true, isUploaded := false)
  }

  /** An image that still has no upload URL after the fetch is marked failed, and nothing is sent for it. */
  lemma NoUrlMeansFailed(u: Upload, fetched: Option<SignedUrls>, putSucceeds: bool)
    requires !u.isUploaded && AfterFetch(u, fetched).uploadUrl == ""
    ensures !Attempted(u, fetched)
    ensures UploadStep(u, fetched, putSucceeds) == AfterFetch(u, fetched).(isUploaded := false, hasUploadError := true)
  {
  }

  /** A URL the image already has is kept: the signed URL is fetched once, and retries reuse it. */
  lemma KnownUrlKept(u: Upload, fetched: Option<SignedUrls>, putSucceeds: bool)
    requires u.uploadUrl != ""
    ensures UploadStep(u, fetched, putSucceeds).uploadUrl == u.uploadUrl
    ensures UploadStep(u, fetched, putSucceeds).uploadedName == u.uploadedName
  {
  }

  /** Uploading twice with the same outcomes settles: a successful image is left alone the second time. */
  lemma UploadSettles(u: Upload, fetched: Option<SignedUrls>, putSucceeds: bool, fetched': Option<SignedUrls>, putSucceeds': bool)
    requires UploadStep(u, fetched, putSucceeds).isUploaded
    ensures UploadStep(UploadStep(u, fetched, putSucceeds), fetched', putSucceeds') == UploadStep(u, fetched, putSucceeds)
  {
  }

  /** The loop body of `uploadImages` for one image; `put` is the URL a PUT went to, if any. */
  method UploadImage(img: ImageFile, fetched: Option<SignedUrls>, putSucceeds: bool) returns (put: Option<string>)
    modifies img
    ensures StateOf(img) == UploadStep(old(StateOf(img)), fetched, putSucceeds)
    ensures put == if Attempted(old(StateOf(img)), fetched) then Some(AfterFetch(old(StateOf(img)), fetched).uploadUrl) else None
  {
    if img.isUploaded {
      return None;
    }
    if img.uploadUrl == "" && fetched.Some? {
      img.uploadUrl := fetched.value.uploadUrl;
      img.deleteUrl := fetched.value.deleteUrl;
      img.uploadedName := fetched.value.name;
    }
    if img.uploadUrl == "" {
      img.isUploaded := false;
      img.hasUploadError := true;
      return None;
    }
    put := Some(img.uploadUrl);
    if putSucceeds {
      img.isUploaded := true;
      img.hasUploadError := false;
    } else {
      img.hasUploadError := true;
      img.isUploaded := false;
    }
  }

  predicate DistinctObjects(images: seq<ImageFile>) {
    forall i, j :: 0 <= i < j < |images| ==> images[i] != images[j]
  }

  /** The URLs PUT to, in list order, for images whose bookkeeping starts as `us`. */
  function PutUrls(us: seq<Upload>, fetched: seq<Option<SignedUrls>>): seq<string>
    requires |fetched| == |us|
  {
    if us == [] then []
    else
      var n := |us| - 1;
      PutUrls(us[..n], fetched[..n]) + (if Attempted(us[n], fetched[n]) then [AfterFetch(us[n], fetched[n]).uploadUrl] else [])
  }

  /**
   * `uploadImages`: each image not yet uploaded gets an upload URL if it lacks one and is then
   * PUT; `fetched[k]` and `putSucceeds[k]` are the outcomes of those calls for the k-th image.
   * Images uploaded before are untouched. When no image is listed twice, each image's
   * bookkeeping is `UploadStep` of its own, so every image that was not uploaded before ends
   * with exactly one of the two flags, and the PUTs go out in list order.
   */
  method UploadImages(images: seq<ImageFile>, fetched: seq<Option<SignedUrls>>, putSucceeds: seq<bool>)
    returns (puts: seq<string>)
    requires |fetched| == |images| && |putSucceeds| == |images|
    modifies images
    ensures forall k :: 0 <= k < |images| && old(images[k].isUploaded) ==> StateOf(images[k]) == old(StateOf(images[k]))
    ensures DistinctObjects(images) ==>
      && (forall k :: 0 <= k < |images| ==> StateOf(images[k]) == UploadStep(old(StateOf(images[k])), fetched[k], putSucceeds[k]))
      && puts == PutUrls(old(States(images)), fetched)
  {
    ghost var before := States(images);
    ghost var distinct := DistinctObjects(images);
    puts := [];
    for i := 0 to |images|
      invariant forall k :: 0 <= k < |images| && before[k].isUploaded ==> StateOf(images[k]) == before[k]
      invariant distinct ==> forall k :: 0 <= k < i ==> StateOf(images[k]) == UploadStep(before[k], fetched[k], putSucceeds[k])
      invariant distinct ==> forall k :: i <= k < |images| ==> StateOf(images[k]) == before[k]
      invariant distinct ==> puts == PutUrls(before[..i], fetched[..i])
    {
      var put := UploadNext(images, fetched, putSucceeds, i, before, distinct);
      if put.Some? {
        puts := puts + [put.value];
      }
      if distinct {
        PutUrlsStep(before, fetched, i);
      }
    }
    if distinct {
      assert before[..|images|] == before && fetched[..|images|] == fetched;
    }
  }

  /** One pass of the loop of `uploadImages`, on the i-th image; only that image changes. */
  method UploadNext(images: seq<ImageFile>, fetched: seq<Option<SignedUrls>>, putSucceeds: seq<bool>, i: nat,
                    ghost before: seq<Upload>, ghost distinct: bool)
    returns (put: Option<string>)
    requires |fetched| == |images| && |putSucceeds| == |images| && |before| == |images| && i < |images|
    requires distinct ==> DistinctObjects(images)
    requires forall k :: 0 <= k < |images| && before[k].isUploaded ==> StateOf(images[k]) == before[k]
    requires distinct ==> StateOf(images[i]) == before[i]
    modifies images[i]
    ensures forall k :: 0 <= k < |images| && before[k].isUploaded ==> StateOf(images[k]) == before[k]
    ensures distinct ==> forall k :: 0 <= k < |images| && k != i ==> StateOf(images[k]) == old(StateOf(images[k]))
    ensures distinct ==> StateOf(images[i]) == UploadStep(before[i], fetched[i], putSucceeds[i])
    ensures distinct ==> put == if Attempted(before[i], fetched[i]) then Some(AfterFetch(before[i], fetched[i]).uploadUrl) else None
  {
    ghost var s0 := StateOf(images[i]);
    put := UploadImage(images[i], fetched[i], putSucceeds[i]);
    forall k | 0 <= k < |images| && before[k].isUploaded
      ensures StateOf(images[k]) == before[k]
    {
      if images[k] == images[i] {
        assert s0 == before[k];
      }
    }
  }

  /** Extending the visited prefix by one image adds that image's PUT, if any. */
  lemma PutUrlsStep(us: seq<Upload>, fetched: seq<Option<SignedUrls>>, i: nat)
    requires |fetched| == |us| && i < |us|
    ensures PutUrls(us[..i + 1], fetched[..i + 1]) ==
      PutUrls(us[..i], fetched[..i]) + (if Attempted(us[i], fetched[i]) then [AfterFetch(us[i], fetched[i]).uploadUrl] else [])
  {
    assert us[..i + 1][..i] == us[..i] && fetched[..i + 1][..i] == fetched[..i];
  }

  /** The create request the form sends: every text field as typed and the images' uploaded names. */
  function ToRequest(data: FormData, imageNames: seq<string>): LegacyDefectControllers.LegacyCreateRequest {
    LegacyDefectControllers.LegacyCreateRequest(data.defectObject, data.location, Some(data.status),
      Some(data.shortDescription), Some(data.detailedDescription), imageNames)
  }

  /** `images.map(image => image.uploadedName)`. */
  function UploadedNames(images: seq<ImageFile>): (ns: seq<string>)
    reads images
    ensures |ns| == |images|
    ensures forall k :: 0 <= k < |images| ==> ns[k] == images[k].uploadedName
  {
    if images == [] then [] else [images[0].uploadedName] + UploadedNames(images[1..])
  }

  predicate AllUploaded(images: seq<ImageFile>)
    reads images
  {
    forall k :: 0 <= k < |images| ==> images[k].isUploaded
  }

  /**
   * `handleSubmit`: invalid fields stop the submit before any upload; after the upload, any
   * image that is not uploaded stops it before the request. Otherwise the request carries the
   * form's fields and the uploaded names of the images in list order, and the defect counts as
   * created exactly when the POST succeeds. `uploaded` is what the form remembers for cleanup:
   * `remembered`, what it held before the submit, when the fields stop it, else the images sent
   * to the upload.
   */
  method HandleSubmit(data: FormData, images: seq<ImageFile>, remembered: seq<ImageFile>,
                      fetched: seq<Option<SignedUrls>>, putSucceeds: seq<bool>, postSucceeds: bool)
    returns (request: Option<LegacyDefectControllers.LegacyCreateRequest>, uploaded: seq<ImageFile>, puts: seq<string>,
             defectCreated: bool)
    requires |fetched| == |images| && |putSucceeds| == |images|
    modifies images
    ensures !AllValid(data) ==> request.None? && uploaded == remembered && puts == [] && !defectCreated
    ensures !AllValid(data) ==> forall k :: 0 <= k < |images| ==> StateOf(images[k]) == old(StateOf(images[k]))
    ensures AllValid(data) ==> uploaded == images
    ensures AllValid(data) ==>
      forall k :: 0 <= k < |images| && old(images[k].isUploaded) ==> StateOf(images[k]) == old(StateOf(images[k]))
    ensures AllValid(data) && DistinctObjects(images) ==>
      && (forall k :: 0 <= k < |images| ==> StateOf(images[k]) == UploadStep(old(StateOf(images[k])), fetched[k], putSucceeds[k]))
      && puts == PutUrls(old(States(images)), fetched)
    ensures request.Some? <==> AllValid(data) && AllUploaded(images)
    ensures request.Some? ==> request.value == ToRequest(data, UploadedNames(images))
    ensures defectCreated <==> request.Some? && postSucceeds
  {
    var isValid, errors := ValidateAllFields(data);
    if !isValid {
      return None, remembered, [], false;
    }
    var imagesToUpload := images;
    puts := UploadImages(imagesToUpload, fetched, putSucceeds);
    uploaded := imagesToUpload;
    var k := 0;
    while k < |imagesToUpload|
      invariant 0 <= k <= |imagesToUpload|
      invariant forall j :: 0 <= j < k ==> imagesToUpload[j].isUploaded
    {
      if !imagesToUpload[k].isUploaded {
        return None, uploaded, puts, false;
      }
      k := k + 1;
    }
    request := Some(ToRequest(data, UploadedNames(images)));
    defectCreated := postSucceeds;
  }

  /** A successful submit names exactly the images it uploaded, and each name is the one the backend handed out for it. */
  lemma SubmittedNamesAreUploaded(data: FormData, images: seq<ImageFile>, request: LegacyDefectControllers.LegacyCreateRequest)
    requires AllUploaded(images) && request == ToRequest(data, UploadedNames(images))
    ensures |request.imageNames| == |images|
    ensures forall k :: 0 <= k < |images| ==> images[k].isUploaded && request.imageNames[k] == images[k].uploadedName
    ensures request.status == Some(data.status) && request.defectObject == data.defectObject && request.location == data.location
  {
  }

  /** `removeFileFromGcs`: a DELETE goes to the image's delete URL only if it was uploaded and has one. */
  function RemoveFromGcs(u: Upload): (del: Option<string>)
    ensures del.Some? <==> u.isUploaded && u.deleteUrl != ""
    ensures del.Some? ==> del.value == u.deleteUrl
  {
    if u.isUploaded && u.deleteUrl != "" then Some(u.deleteUrl) else None
  }

  /** The DELETEs for a list of images, in list order. */
  function CleanupUrls(us: seq<Upload>): seq<string> {
    if us == [] then []
    else
      var n := |us| - 1;
      CleanupUrls(us[..n]) + (if RemoveFromGcs(us[n]).Some? then [RemoveFromGcs(us[n]).value] else [])
  }

  /**
   * The unmount cleanup: nothing is deleted once the defect was created; otherwise each
   * remembered image that was uploaded and has a delete URL is deleted, in list order.
   */
  method Cleanup(uploaded: seq<ImageFile>, defectCreated: bool) returns (deletes: seq<string>)
    ensures deletes == if defectCreated then [] else CleanupUrls(States(uploaded))
  {
    deletes := [];
    if defectCreated {
      return;
    }
    ghost var us := States(uploaded);
    for i := 0 to |uploaded|
      invariant deletes == CleanupUrls(us[..i])
    {
      var del := RemoveFromGcs(StateOf(uploaded[i]));
      if del.Some? {
        deletes := deletes + [del.value];
      }
      assert us[..i + 1][..i] == us[..i];
    }
    assert us[..|uploaded|] == us;
  }

  /** Every DELETE of the cleanup goes to the delete URL of an uploaded image, and each such image gets one. */
  lemma {:induction false} CleanupDeletesUploaded(us: seq<Upload>)
    ensures forall url :: url in CleanupUrls(us) ==> exists k :: 0 <= k < |us| && us[k].isUploaded && us[k].deleteUrl == url && url != ""
    ensures forall k :: 0 <= k < |us| && us[k].isUploaded && us[k].deleteUrl != "" ==> us[k].deleteUrl in CleanupUrls(us)
  {
    if us != [] {
      var n := |us| - 1;
      CleanupDeletesUploaded(us[..n]);
      forall url | url in CleanupUrls(us)
        ensures exists k :: 0 <= k < |us| && us[k].isUploaded && us[k].deleteUrl == url && url != ""
      {
        if url in CleanupUrls(us[..n]) {
          var k :| 0 <= k < n && us[..n][k].isUploaded && us[..n][k].deleteUrl == url && url != "";
          assert us[k] == us[..n][k];
        }
      }
      forall k | 0 <= k < |us| && us[k].isUploaded && us[k].deleteUrl != ""
        ensures us[k].deleteUrl in CleanupUrls(us)
      {
        if k < n {
          assert us[..n][k] == us[k];
        }
      }
    }
  }

  /** `filter((f) => f !== file)`: the list without that very object, the others kept in order. */
  function WithoutFile(images: seq<ImageFile>, file: ImageFile): (r: seq<ImageFile>)
    ensures file !in r && |r| <= |images|
    ensures forall i :: 0 <= i < |r| ==> r[i] in images
    ensures forall i :: 0 <= i < |images| && images[i] != file ==> images[i] in r
  {
    if images == [] then []
    else
      var n := |images| - 1;
      WithoutFile(images[..n], file) + (if images[n] != file then [images[n]] else [])
  }

  /** Every other image keeps its multiplicity; the removed one is gone however often it appeared. */
  lemma {:induction false} WithoutFileCounts(images: seq<ImageFile>, file: ImageFile)
    ensures multiset(WithoutFile(images, file))[file] == 0
    ensures forall img :: img != file ==> multiset(WithoutFile(images, file))[img] == multiset(images)[img]
  {
    if images != [] {
      var n := |images| - 1;
      WithoutFileCounts(images[..n], file);
      assert images == images[..n] + [images[n]];
    }
  }

  /** Removing an image that is not in the list leaves the list as it was. */
  lemma {:induction false} WithoutAbsentFile(images: seq<ImageFile>, file: ImageFile)
    requires file !in images
    ensures WithoutFile(images, file) == images
  {
    if images != [] {
      var n := |images| - 1;
      WithoutAbsentFile(images[..n], file);
      assert images == images[..n] + [images[n]];
    }
  }

  /**
   * `removeFile`: the image is deleted from storage if it was uploaded, then the list drops that
   * very object. A DELETE that fails rejects before the list is set, which then stays as it was.
   */
  method RemoveFile(images: seq<ImageFile>, file: ImageFile, deleteSucceeds: bool) returns (del: Option<string>, rest: seq<ImageFile>)
    ensures del == RemoveFromGcs(StateOf(file))
    ensures del.None? || deleteSucceeds ==> rest == WithoutFile(images, file)
    ensures del.Some? && !deleteSucceeds ==> rest == images
  {
    del := RemoveFromGcs(StateOf(file));
    if del.Some? && !deleteSucceeds {
      return del, images;
    }
    rest := [];
    for i := 0 to |images|
      invariant rest == WithoutFile(images[..i], file)
    {
      assert images[..i + 1][..i] == images[..i];
      if images[i] != file {
        rest := rest + [images[i]];
      }
    }
    assert images[..|images|] == images;
  }
}
