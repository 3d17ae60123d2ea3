/**
 * The defect aggregate of property management (src/defects/models/defectAggregate/Defect.ts):
 * a defect report whose status and image list change in place, and its persisted state.
 *
 * Dates are epoch milliseconds; `toISOString` and `new Date(iso)` are exact inverses at that
 * precision, so the persisted state holds the same number. The random id and the clock reading
 * of the constructor are parameters.
 */
module Defects {
  import opened Wrappers

  /** The four report statuses the controllers distinguish. */
  datatype DefectReportStatus = Open | InWork | Closed | Rejected

  /** The status member names, as they appear in persisted state and responses. */
  const StatusNames: set<string> := {"Open", "InWork", "Closed", "Rejected"}

  /** `DefectReportStatus[s]`: the member's name; an undefined status renders as undefined. */
  function StatusName(s: Option<DefectReportStatus>): (name: Option<string>)
    ensures name.None? <==> s.None?
    ensures name.Some? ==> name.value in StatusNames
  {
    match s
    case None => None
    case Some(Open) => Some("Open")
    case Some(InWork) => Some("InWork")
    case Some(Closed) => Some("Closed")
    case Some(Rejected) => Some("Rejected")
  }

  /** `DefectReportStatus[name as keyof typeof DefectReportStatus]`: undefined for any other name. */
  function ParseStatus(name: Option<string>): (s: Option<DefectReportStatus>)
    ensures s.Some? <==> name.Some? && name.value in StatusNames
  {
    match name
    case None => None
    case Some(n) =>
      if n == "Open" then Some(Open)
      else if n == "InWork" then Some(InWork)
      else if n == "Closed" then Some(Closed)
      else if n == "Rejected" then Some(Rejected)
      else None
  }

  /** Rendering then parsing gives the status back, so rendering is injective. */
  lemma StatusRoundTrip(s: Option<DefectReportStatus>)
    ensures ParseStatus(StatusName(s)) == s
  {
  }

  /** Parsing then rendering gives the name back exactly when the name is a member name or absent. */
  lemma NameRoundTrip(name: Option<string>)
    ensures StatusName(ParseStatus(name)) == name <==> name.None? || name.value in StatusNames
  {
    if name.Some? && name.value !in StatusNames {
      assert ParseStatus(name).None?;
    }
  }

  /** DefectState.ts: the persisted form. Descriptions may be undefined when a request omits them. */
  datatype DefectState = DefectState(
    id: string, garageId: string, defectObject: string, location: string,
    shortDesc: Option<string>, detailedDesc: Option<string>,
    reportingDate: int, status: Option<string>, imageNames: seq<string>, lastModifiedAt: int)

  /** What `fromState` makes of a state: the status goes through the name lookup. */
  function Restored(dto: DefectState): (r: DefectState)
    ensures r.status == StatusName(ParseStatus(dto.status))
    ensures r == dto <==> dto.status.None? || dto.status.value in StatusNames
  {
    NameRoundTrip(dto.status);
    dto.(status := StatusName(ParseStatus(dto.status)))
  }

  /** Every state that `toState` writes is restored unchanged. */
  lemma RestoredOfRendered(dto: DefectState, s: Option<DefectReportStatus>)
    requires dto.status == StatusName(s)
    ensures Restored(dto) == dto
  {
    StatusRoundTrip(s);
  }

  class Defect {
    /** `_Id` has only a getter; it is fixed at construction (`fromState` included). */
    const id: string
    var status: Option<DefectReportStatus>
    var imageNames: seq<string>
    var lastModifiedAt: int
    var reportingDate: int
    /** Declared but neither set by the constructor nor persisted. */
    var tenantId: Option<string>
    var garageId: string
    var garageName: Option<string>
    var defectObject: string
    var location: string
    var shortDesc: Option<string>
    var detailedDesc: Option<string>

    /** A fresh report: open, no images, empty descriptions, last modified when reported. */
    constructor (defectObject: string, location: string, garageId: string, newId: string, now: int)
      ensures id == newId && this.garageId == garageId && this.defectObject == defectObject && this.location == location
      ensures status == Some(Open) && imageNames == []
      ensures shortDesc == Some("") && detailedDesc == Some("")
      ensures reportingDate == now && lastModifiedAt == reportingDate
      ensures tenantId.None? && garageName.None?
    {
      id := newId;
      this.garageId := garageId;
      imageNames := [];
      this.defectObject := defectObject;
      this.location := location;
      reportingDate := now;
      status := Some(Open);
      shortDesc := Some("");
      detailedDesc := Some("");
      lastModifiedAt := now;
      tenantId := None;
      garageName := None;
    }

    /**
     * `fromState`: a defect carrying every field of the state. The source first runs the plain
     * constructor and then overwrites each field, which leaves the same result.
     */
    constructor FromState(dto: DefectState)
      ensures ToState() == Restored(dto)
      ensures status == ParseStatus(dto.status)
      ensures tenantId.None? && garageName.None?
    {
      id := dto.id;
      garageId := dto.garageId;
      defectObject := dto.defectObject;
      location := dto.location;
      shortDesc := dto.shortDesc;
      detailedDesc := dto.detailedDesc;
      status := ParseStatus(dto.status);
      imageNames := dto.imageNames;
      lastModifiedAt := dto.lastModifiedAt;
      reportingDate := dto.reportingDate;
      tenantId := None;
      garageName := None;
    }

    /** `toState`: the persisted fields, status rendered by name and images copied. */
    function ToState(): DefectState
      reads this
    {
      DefectState(id, garageId, defectObject, location, shortDesc, detailedDesc,
                  reportingDate, StatusName(status), imageNames, lastModifiedAt)
    }

    /** Appends the name and changes nothing else. */
    method AddImage(name: string)
      modifies this
      ensures imageNames == old(imageNames) + [name]
      ensures ToState() == old(ToState()).(imageNames := old(imageNames) + [name])
      ensures tenantId == old(tenantId) && garageName == old(garageName)
    {
      imageNames := imageNames + [name];
    }

    /** Sets the status and the modification time, and nothing else. */
    method SetStatus(s: Option<DefectReportStatus>, now: int)
      modifies this
      ensures status == s && lastModifiedAt == now
      ensures ToState() == old(ToState()).(status := StatusName(s), lastModifiedAt := now)
      ensures tenantId == old(tenantId) && garageName == old(garageName)
    {
      status := s;
      lastModifiedAt := now;
    }
  }

  /** Two defects agree on everything that is persisted. */
  predicate SamePersisted(a: Defect, b: Defect)
    reads a, b
  {
    a.id == b.id && a.garageId == b.garageId && a.defectObject == b.defectObject && a.location == b.location
    && a.shortDesc == b.shortDesc && a.detailedDesc == b.detailedDesc && a.status == b.status
    && a.imageNames == b.imageNames && a.reportingDate == b.reportingDate
    && a.lastModifiedAt == b.lastModifiedAt
  }

  /**
   * `fromState(toState(d))`: whatever `FromState` builds from `d`'s state agrees with `d` on every
   * persisted field, status and images included.
   */
  lemma StateRoundTrip(d: Defect, e: Defect)
    requires e.ToState() == Restored(d.ToState())
    ensures SamePersisted(d, e)
  {
    RestoredOfRendered(d.ToState(), d.status);
    StatusRoundTrip(d.status);
    StatusRoundTrip(e.status);
  }
}
