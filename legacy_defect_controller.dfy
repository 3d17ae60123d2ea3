/**
 * The earlier DefectController.ts (defects/controllers): the handlers' decisions over a
 * repository seen only through the outcomes of its calls. Each handler returns the repository
 * and storage calls it issues, in order, and the response it sends (None when it throws before
 * answering).
 */
module LegacyDefectControllers {
  import opened Wrappers
  import opened Defects
  import opened LegacyDefects
  import opened DefectControllers

  /** How `getDefect` settles: with a defect, with `undefined`, or by rejecting. */
  datatype Fetch = Found(defect: LegacyDefect) | Missing | Rejected

  /** How `updateDefect` settles. */
  datatype UpdateOutcome = Resolved(updated: bool) | Threw

  datatype Call = AddDefect(defect: LegacyDefect) | UpdateDefect(defect: LegacyDefect) | DeleteDefect(id: string) | DeleteImage(name: string)

  /** CreateDefectRequestObject of this revision: no garage, but a status. */
  datatype LegacyCreateRequest = LegacyCreateRequest(
    defectObject: string, location: string, status: Option<string>,
    shortDesc: Option<string>, detailedDesc: Option<string>, imageNames: seq<string>)

  /** The state `toDefect` gives a new defect: the request's fields, open, created and modified now. */
  function CreatedState(req: LegacyCreateRequest, newId: string, now: int): LegacyDefectState {
    LegacyDefectState(newId, req.defectObject, req.location, req.shortDesc, req.detailedDesc, now, Some("Open"), req.imageNames, now)
  }

  /**
   * `toDefect`: the status is parsed and handed to a constructor that takes no status, so every
   * created defect starts open whatever the request says.
   */
  method ToDefect(req: LegacyCreateRequest, newId: string, now: int) returns (d: LegacyDefect)
    ensures fresh(d)
    ensures d.ToState() == CreatedState(req, newId, now)
    ensures d.status == Some(Open)
  {
    var ignored := ParseStatus(req.status);
    d := new LegacyDefect(req.defectObject, req.location, newId, now);
    d.shortDesc := req.shortDesc;
    d.detailedDesc := req.detailedDesc;
    ghost var base := d.ToState();
    for i := 0 to |req.imageNames|
      invariant d.ToState() == base.(imageNames := req.imageNames[..i])
      invariant d.status == Some(Open)
    {
      d.AddImage(req.imageNames[i]);
      assert req.imageNames[..i + 1] == req.imageNames[..i] + [req.imageNames[i]];
    }
    assert req.imageNames[..|req.imageNames|] == req.imageNames;
  }

  /**
   * createDefect: with an image missing from storage the answer is 400 and the repository is not
   * called; otherwise the defect is added and the answer is its id as `{Id}`, or 500 with the
   * request body when the add fails. `body` is the request body as `JSON.stringify` writes it.
   */
  method CreateDefect(req: LegacyCreateRequest, body: string, stored: set<string>, newId: string, now: int, addSucceeds: bool)
    returns (resp: Response, calls: seq<Call>)
    ensures !AllUploaded(req.imageNames, stored) ==> resp.status == 400 && calls == []
    ensures AllUploaded(req.imageNames, stored) ==>
      && |calls| == 1 && calls[0].AddDefect? && fresh(calls[0].defect)
      && calls[0].defect.status == Some(Open) && calls[0].defect.ToState() == CreatedState(req, newId, now)
      && resp == (if addSucceeds then Response(200, CreatedBody(newId)) else Response(500, "Unable to create defect from body: " + body))
  {
    var d := ToDefect(req, newId, now);
    var allImagesUploaded := CheckUploadedImages(d.imageNames, stored);
    if !allImagesUploaded {
      return Response(400, "Not all images uploaded"), [];
    }
    calls := [AddDefect(d)];
    if addSucceeds {
      resp := Response(200, CreatedBody(d.id));
    } else {
      resp := Response(500, "Unable to create defect from body: " + body);
    }
  }

  /**
   * updateDefect: a rejected lookup is answered 404 with no further call; a found defect gets the
   * requested status and is written back, and the answer is 200 exactly when the write reports
   * success. A lookup that settles with `undefined` throws before any answer.
   */
  method UpdateDefectHandler(id: string, fetch: Fetch, statusName: Option<string>, now: int, outcome: UpdateOutcome)
    returns (resp: Option<Response>, calls: seq<Call>)
    modifies if fetch.Found? then {fetch.defect} else {}
    ensures fetch.Rejected? ==> resp == Some(Response(404, "Unable to find Defect with id " + id + ".")) && calls == []
    ensures fetch.Missing? ==> resp.None? && calls == []
    ensures fetch.Found? ==>
      && calls == [UpdateDefect(fetch.defect)]
      && fetch.defect.status == ParseStatus(statusName) && fetch.defect.lastModifiedAt == now
      && fetch.defect.ToState() == old(fetch.defect.ToState()).(status := StatusName(ParseStatus(statusName)), lastModifiedAt := now)
      && resp.Some?
      && (resp.value.status == 200 <==> outcome == Resolved(true))
      && (resp.value.status != 200 ==> resp.value.status == 500)
  {
    match fetch
    case Rejected =>
      return Some(Response(404, "Unable to find Defect with id " + id + ".")), [];
    case Missing =>
      return None, [];
    case Found(d) =>
      d.SetStatus(ParseStatus(statusName), now);
      calls := [UpdateDefect(d)];
      if outcome == Resolved(true) {
        resp := Some(Response(200, "updated"));
      } else {
        resp := Some(Response(500, "Unable to update defect"));
      }
  }

  /** The storage calls for a list of images, in list order. */
  function ImageDeletes(names: seq<string>): (cs: seq<Call>)
    ensures |cs| == |names|
    ensures forall i :: 0 <= i < |names| ==> cs[i] == DeleteImage(names[i])
  {
    if names == [] then [] else ImageDeletes(names[..|names| - 1]) + [DeleteImage(names[|names| - 1])]
  }

  /**
   * deleteDefect: a rejected lookup is answered 500, a lookup that finds nothing is answered
   * "deleted"; neither calls anything else. A found defect is removed first, then each of its
   * images is deleted; any failure on the way is answered 500.
   */
  method DeleteDefectHandler(id: string, fetch: Fetch, deleteSucceeds: bool, imagesSucceed: bool)
    returns (resp: Response, calls: seq<Call>)
    ensures fetch.Rejected? ==> resp == Response(500, "Unable to delete defect") && calls == []
    ensures fetch.Missing? ==> resp == Response(200, "deleted") && calls == []
    ensures fetch.Found? ==>
      && calls == [DeleteDefect(id)] + (if deleteSucceeds then ImageDeletes(fetch.defect.imageNames) else [])
      && (resp == Response(200, "deleted") <==> deleteSucceeds && imagesSucceed)
      && (resp != Response(200, "deleted") ==> resp == Response(500, "Unable to delete defect"))
  {
    match fetch
    case Rejected =>
      return Response(500, "Unable to delete defect"), [];
    case Missing =>
      return Response(200, "deleted"), [];
    case Found(d) =>
      calls := [DeleteDefect(id)];
      if !deleteSucceeds {
        return Response(500, "Unable to delete defect"), calls;
      }
      calls := calls + ImageDeletes(d.imageNames);
      if imagesSucceed {
        resp := Response(200, "deleted");
      } else {
        resp := Response(500, "Unable to delete defect");
      }
  }

  /** The images of a found defect are deleted only after the defect itself. */
  lemma DeleteBeforeImages(id: string, names: seq<string>, deleteSucceeds: bool)
    ensures var calls := [DeleteDefect(id)] + (if deleteSucceeds then ImageDeletes(names) else []);
      && calls[0] == DeleteDefect(id)
      && forall i :: 1 <= i < |calls| ==> calls[i].DeleteImage?
  {
  }

  /** DefectResponseObject of this revision: no garage. */
  datatype LegacyDefectResponse = LegacyDefectResponse(
    id: string, defectObject: string, location: string,
    shortDesc: string, detailedDesc: string, reportingDate: int, status: Option<string>,
    imageNames: seq<string>, lastModifiedAt: int)

  /** `toGetDefectResponse`. */
  function ToGetDefectResponse(d: LegacyDefect): LegacyDefectResponse
    reads d
  {
    LegacyDefectResponse(d.id, d.defectObject, d.location, d.shortDesc.GetOr(""), d.detailedDesc.GetOr(""),
                         d.reportingDate, StatusName(d.status), d.imageNames, d.lastModifiedAt)
  }

  /** The response agrees with the persisted state, except that an absent description becomes "". */
  lemma ResponseAgreesWithState(d: LegacyDefect)
    ensures var r := ToGetDefectResponse(d); var s := d.ToState();
      && r.id == s.id && r.defectObject == s.defectObject && r.location == s.location
      && r.status == s.status && r.imageNames == s.imageNames
      && r.reportingDate == s.reportingDate && r.lastModifiedAt == s.lastModifiedAt
      && r.shortDesc == s.shortDesc.GetOr("") && r.detailedDesc == s.detailedDesc.GetOr("")
  {
  }

  /** What `checkImageExists(name)` gives without `await`: a promise not yet settled. */
  datatype Promise = Pending(name: string)

  /** JavaScript truthiness of an object: every object is truthy, a pending promise included. */
  predicate Truthy(p: Promise) {
    p.Pending?
  }

  /**
   * The answer of `checkUploadedImages` as written: false at the first falsy answer, else true.
   * The answers are pending promises whatever `stored` holds.
   */
  function PassesAsWritten(names: seq<string>, stored: set<string>): bool {
    names == [] || (Truthy(Pending(names[0])) && PassesAsWritten(names[1..], stored))
  }

  /** The check as written passes every list against every storage. */
  lemma {:induction false} AsWrittenAlwaysPasses(names: seq<string>, stored: set<string>)
    ensures PassesAsWritten(names, stored)
  {
    if names != [] {
      AsWrittenAlwaysPasses(names[1..], stored);
    }
  }

  /**
   * `checkUploadedImages` as written: `checkImageExists` is async, so each answer is a pending
   * promise, which is truthy, and the loop never returns false.
   */
  method CheckUploadedImagesAsWritten(names: seq<string>, stored: set<string>) returns (ok: bool)
    ensures ok == PassesAsWritten(names, stored)
  {
    for i := 0 to |names| {
      var answer := Pending(names[i]);
      if !Truthy(answer) {
        return false;
      }
    }
    AsWrittenAlwaysPasses(names, stored);
    return true;
  }

  /** Any list naming an image that is not stored passes the check as written but not the intended one. */
  lemma AsWrittenAcceptsMissingImage(names: seq<string>, stored: set<string>, i: int)
    requires 0 <= i < |names| && names[i] !in stored
    ensures PassesAsWritten(names, stored) && !AllUploaded(names, stored)
  {
    AsWrittenAlwaysPasses(names, stored);
  }
}
