/**
 * DefectController.ts of property management: the create, update and delete handlers over the
 * in-memory repository, the per-status counters they report to analytics, and the mappings
 * between requests, defects and responses.
 *
 * The garage lookup and the analytics read return the garage and the current counters; both are
 * network calls, so the current counters are a parameter and the counters the handler reports
 * are a result. Image storage is a set of stored image names.
 */
module DefectControllers {
  import opened Wrappers
  import opened Defects
  import opened DefectRepo
  import Text

  datatype Response = Response(status: int, body: string)

  const IdOpen := "{\"Id\":\""
  const IdClose := "\"}"

  /**
   * `toCreateDefectResponse` as `send` writes it: the object `{Id}` serialised as JSON. The id is
   * written as it is, without JSON escaping.
   */
  function CreatedBody(id: string): (b: string)
    ensures Text.StartsWith(b, IdOpen) && Text.EndsWith(b, IdClose)
    ensures |b| == |IdOpen| + |id| + |IdClose|
  {
    IdOpen + id + IdClose
  }

  /** Reading the id back out of a created-defect answer, as a client of the route does. */
  function IdOfCreatedBody(b: string): Option<string> {
    if |b| >= |IdOpen| + |IdClose| && Text.StartsWith(b, IdOpen) && Text.EndsWith(b, IdClose)
    then Some(b[|IdOpen|..|b| - |IdClose|])
    else None
  }

  /** The answer carries the new defect's id: reading it back gives that id, so distinct defects get distinct answers. */
  lemma CreatedBodyRoundTrip(id: string)
    ensures IdOfCreatedBody(CreatedBody(id)) == Some(id)
  {
    var b := CreatedBody(id);
    assert b[|IdOpen|..|b| - |IdClose|] == id;
  }

  /** DefectStatusRecord without its timestamp: the number of defects in each status. */
  datatype StatusRecord = StatusRecord(open: int, inWork: int, closed: int, rejected: int)

  function Count(r: StatusRecord, s: DefectReportStatus): int {
    match s
    case Open => r.open
    case InWork => r.inWork
    case Closed => r.closed
    case Rejected => r.rejected
  }

  function Total(r: StatusRecord): int {
    r.open + r.inWork + r.closed + r.rejected
  }

  /** Reported on create: one more open defect, the others as read. */
  function Created(r: StatusRecord): (c: StatusRecord)
    ensures forall k :: Count(c, k) == Count(r, k) + (if k == Open then 1 else 0)
  {
    r.(open := r.open + 1)
  }

  /** The decrement chain: the counter of the given status loses one; an undefined status matches no branch. */
  function Lowered(r: StatusRecord, s: Option<DefectReportStatus>): (c: StatusRecord)
    ensures forall k :: Count(c, k) == Count(r, k) - (if s == Some(k) then 1 else 0)
  {
    if s == Some(Open) then r.(open := r.open - 1)
    else if s == Some(Closed) then r.(closed := r.closed - 1)
    else if s == Some(InWork) then r.(inWork := r.inWork - 1)
    else if s == Some(Rejected) then r.(rejected := r.rejected - 1)
    else r
  }

  /** The increment chain: the counter of the given status gains one. */
  function Raised(r: StatusRecord, s: Option<DefectReportStatus>): (c: StatusRecord)
    ensures forall k :: Count(c, k) == Count(r, k) + (if s == Some(k) then 1 else 0)
  {
    if s == Some(Open) then r.(open := r.open + 1)
    else if s == Some(Closed) then r.(closed := r.closed + 1)
    else if s == Some(InWork) then r.(inWork := r.inWork + 1)
    else if s == Some(Rejected) then r.(rejected := r.rejected + 1)
    else r
  }

  /** Reported on a status change: the old status's counter down, the new one's up. */
  function StatusChanged(r: StatusRecord, from: Option<DefectReportStatus>, to: Option<DefectReportStatus>): StatusRecord {
    Raised(Lowered(r, from), to)
  }

  /**
   * A status change moves one unit from the old counter to the new one: the total is kept when
   * both statuses are valid, and a change to the same status changes nothing.
   */
  lemma StatusChangeMovesOne(r: StatusRecord, from: Option<DefectReportStatus>, to: Option<DefectReportStatus>)
    ensures forall k :: (Count(StatusChanged(r, from, to), k)
      == Count(r, k) - (if from == Some(k) then 1 else 0) + (if to == Some(k) then 1 else 0))
    ensures from.Some? && to.Some? ==> Total(StatusChanged(r, from, to)) == Total(r)
    ensures from == to ==> StatusChanged(r, from, to) == r
  {
    var c := StatusChanged(r, from, to);
    assert Total(c) == Count(c, Open) + Count(c, InWork) + Count(c, Closed) + Count(c, Rejected);
  }

  /** A delete removes one unit from the deleted defect's counter and so lowers a valid total by one. */
  lemma DeleteLowersTotal(r: StatusRecord, s: DefectReportStatus)
    ensures Total(Lowered(r, Some(s))) == Total(r) - 1
    ensures Total(Created(r)) == Total(r) + 1
  {
    var c := Lowered(r, Some(s));
    assert Total(c) == Count(c, Open) + Count(c, InWork) + Count(c, Closed) + Count(c, Rejected);
  }

  /** Every image of the list is stored. */
  predicate AllUploaded(names: seq<string>, stored: set<string>) {
    forall i :: 0 <= i < |names| ==> names[i] in stored
  }

  /** `checkUploadedImages`: true on an empty list, false at the first image that is not stored. */
  method CheckUploadedImages(names: seq<string>, stored: set<string>) returns (ok: bool)
    ensures ok <==> AllUploaded(names, stored)
  {
    for i := 0 to |names|
      invariant AllUploaded(names[..i], stored)
    {
      if names[i] !in stored {
        return false;
      }
    }
    return true;
  }

  /** CreateDefectRequestObject; descriptions may be missing from the request body. */
  datatype CreateDefectRequest = CreateDefectRequest(
    defectObject: string, location: string, garageId: string,
    shortDesc: Option<string>, detailedDesc: Option<string>, imageNames: seq<string>)

  /** `d` is what `toDefect` makes of the request. */
  predicate MadeFrom(d: Defect, req: CreateDefectRequest, newId: string, now: int)
    reads d
  {
    d.ToState() == DefectState(newId, req.garageId, req.defectObject, req.location,
                               req.shortDesc, req.detailedDesc, now, Some("Open"), req.imageNames, now)
  }

  /** `toDefect`: an open defect with the request's fields and its images in request order. */
  method ToDefect(req: CreateDefectRequest, newId: string, now: int) returns (d: Defect)
    ensures fresh(d) && MadeFrom(d, req, newId, now) && d.status == Some(Open)
  {
    d := new Defect(req.defectObject, req.location, req.garageId, newId, now);
    d.shortDesc := req.shortDesc;
    d.detailedDesc := req.detailedDesc;
    ghost var base := d.ToState();
    for i := 0 to |req.imageNames|
      invariant d.ToState() == base.(imageNames := req.imageNames[..i])
      invariant d.status == Some(Open)
    {
      d.AddImage(req.imageNames[i]);
      assert req.imageNames[..i + 1] == req.imageNames[..i] + [req.imageNames[i]];
    }
    assert req.imageNames[..|req.imageNames|] == req.imageNames;
  }

  /** DefectResponseObject: the persisted fields with descriptions defaulted to "". */
  datatype DefectResponse = DefectResponse(
    id: string, garageId: string, defectObject: string, location: string,
    shortDesc: string, detailedDesc: string, reportingDate: int, status: Option<string>,
    imageNames: seq<string>, lastModifiedAt: int)

  /** `toGetDefectResponse`. */
  function ToGetDefectResponse(d: Defect): DefectResponse
    reads d
  {
    DefectResponse(d.id, d.garageId, d.defectObject, d.location,
                   d.shortDesc.GetOr(""), d.detailedDesc.GetOr(""), d.reportingDate,
                   StatusName(d.status), d.imageNames, d.lastModifiedAt)
  }

  /**
   * The response agrees with the persisted state on every field, except that an absent
   * description becomes "".
   */
  lemma ResponseAgreesWithState(d: Defect)
    ensures var r := ToGetDefectResponse(d); var s := d.ToState();
      && r.id == s.id && r.garageId == s.garageId && r.defectObject == s.defectObject
      && r.location == s.location && r.status == s.status && r.imageNames == s.imageNames
      && r.reportingDate == s.reportingDate && r.lastModifiedAt == s.lastModifiedAt
      && (s.shortDesc.Some? ==> r.shortDesc == s.shortDesc.value) && (s.shortDesc.None? ==> r.shortDesc == "")
      && (s.detailedDesc.Some? ==> r.detailedDesc == s.detailedDesc.value) && (s.detailedDesc.None? ==> r.detailedDesc == "")
  {
  }

  /** Stored images, with deletion of one name. */
  class ObjectStorage {
    var images: set<string>

    constructor (images: set<string>)
      ensures this.images == images
    {
      this.images := images;
    }

    method DeleteImage(name: string)
      modifies this
      ensures images == old(images) - {name}
    {
      images := images - {name};
    }
  }

  function ImageSet(names: seq<string>): set<string> {
    set i | 0 <= i < |names| :: names[i]
  }

  class DefectController {
    const repository: InMemoryDefectRepo
    const storage: ObjectStorage

    constructor (repo: InMemoryDefectRepo, storage: ObjectStorage)
      ensures repository == repo && this.storage == storage
    {
      repository := repo;
      this.storage := storage;
    }

    /**
     * createDefect: a request with an image that is not stored is refused with 400 and touches
     * nothing; otherwise one more open defect is reported, the defect is appended and its id returned as `{Id}`.
     */
    method CreateDefect(req: CreateDefectRequest, current: StatusRecord, newId: string, now: int)
      returns (resp: Response, reported: Option<StatusRecord>)
      modifies repository
      ensures !AllUploaded(req.imageNames, storage.images) ==>
        resp == Response(400, "Not all images uploaded") && reported.None? && repository.defects == old(repository.defects)
      ensures AllUploaded(req.imageNames, storage.images) ==>
        && resp == Response(200, CreatedBody(newId)) && reported == Some(Created(current))
        && |repository.defects| == |old(repository.defects)| + 1
        && repository.defects[..|old(repository.defects)|] == old(repository.defects)
        && fresh(repository.defects[|old(repository.defects)|])
        && MadeFrom(repository.defects[|old(repository.defects)|], req, newId, now)
    {
      var d := ToDefect(req, newId, now);
      var allImagesUploaded := CheckUploadedImages(d.imageNames, storage.images);
      if !allImagesUploaded {
        return Response(400, "Not all images uploaded"), None;
      }
      reported := Some(Created(current));
      repository.AddDefect(d);
      resp := Response(200, CreatedBody(d.id));
    }

    /**
     * updateDefect: an unknown id is answered 404 and nothing changes. Otherwise the old status's
     * counter moves to the new one, the stored defect itself gets the new status and time, and the
     * update (which finds that very defect) answers 200.
     */
    method UpdateDefect(id: string, statusName: Option<string>, current: StatusRecord, now: int)
      returns (resp: Response, reported: Option<StatusRecord>)
      modifies repository, repository.defects
      ensures repository.defects == old(repository.defects)
      ensures FindIndex(old(repository.defects), id) == -1 ==>
        resp.status == 404 && reported.None? && forall e :: e in old(repository.defects) ==> unchanged(e)
      ensures var i := FindIndex(old(repository.defects), id);
        i >= 0 ==>
          var d := old(repository.defects)[i];
          && resp == Response(200, "updated")
          && reported == Some(StatusChanged(current, old(d.status), ParseStatus(statusName)))
          && d.status == ParseStatus(statusName)
          && d.ToState() == old(d.ToState()).(status := StatusName(ParseStatus(statusName)), lastModifiedAt := now)
          && forall e :: e in old(repository.defects) && e != d ==> unchanged(e)
    {
      var found := repository.GetDefect(id);
      if found.Failure? {
        return Response(404, "Unable to find Defect with id " + id + "."), None;
      }
      var d := found.value;
      var status := ParseStatus(statusName);
      reported := Some(StatusChanged(current, d.status, status));
      d.SetStatus(status, now);
      var updated := repository.UpdateDefect(d);
      if updated {
        resp := Response(200, "updated");
      } else {
        resp := Response(500, "Unable to update defect");
      }
    }

    /**
     * deleteDefect: the repository rejects an unknown id, which is answered 500 with nothing
     * changed. Otherwise every defect with the id is removed, the deleted defect's counter loses
     * one, and each of its images is deleted from storage.
     */
    method DeleteDefect(id: string, current: StatusRecord) returns (resp: Response, reported: Option<StatusRecord>)
      modifies repository, storage
      ensures FindIndex(old(repository.defects), id) == -1 ==>
        && resp == Response(500, "Unable to delete defect") && reported.None?
        && repository.defects == old(repository.defects) && storage.images == old(storage.images)
      ensures var i := FindIndex(old(repository.defects), id);
        i >= 0 ==>
          var d := old(repository.defects)[i];
          && resp == Response(200, "deleted")
          && repository.defects == Without(old(repository.defects), id)
          && reported == Some(Lowered(current, d.status))
          && storage.images == old(storage.images) - ImageSet(d.imageNames)
    {
      var found := repository.GetDefect(id);
      if found.Failure? {
        return Response(500, "Unable to delete defect"), None;
      }
      var d := found.value;
      repository.DeleteDefect(id);
      reported := Some(Lowered(current, d.status));
      for j := 0 to |d.imageNames|
        invariant storage.images == old(storage.images) - ImageSet(d.imageNames[..j])
        invariant repository.defects == Without(old(repository.defects), id)
      {
        storage.DeleteImage(d.imageNames[j]);
        assert d.imageNames[..j + 1] == d.imageNames[..j] + [d.imageNames[j]];
        assert ImageSet(d.imageNames[..j + 1]) == ImageSet(d.imageNames[..j]) + {d.imageNames[j]};
      }
      assert d.imageNames[..|d.imageNames|] == d.imageNames;
      resp := Response(200, "deleted");
    }

    /** getDefects: one response per stored defect, in repository order. */
    method GetDefects() returns (all: seq<DefectResponse>)
      ensures |all| == |repository.defects|
      ensures forall i :: 0 <= i < |all| ==> all[i] == ToGetDefectResponse(repository.defects[i])
    {
      var ds := repository.GetAllDefects();
      all := seq(|ds|, i reads ds requires 0 <= i < |ds| => ToGetDefectResponse(ds[i]));
    }

    /** getDefectById: the first defect with the id; the rejection of an unknown id is answered 500. */
    method GetDefectById(id: string) returns (status: int, body: Option<DefectResponse>)
      ensures var i := FindIndex(repository.defects, id);
        && (i >= 0 ==> status == 200 && body == Some(ToGetDefectResponse(repository.defects[i])))
        && (i == -1 ==> status == 500 && body.None?)
    {
      var found := repository.GetDefect(id);
      if found.Failure? {
        return 500, None;
      }
      return 200, Some(ToGetDefectResponse(found.value));
    }
  }
}
