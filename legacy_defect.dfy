/**
 * The earlier revision of the defect aggregate (defects/models/defectAggregate/Defect.ts):
 * no garage reference, and the id is a public field that callers may overwrite.
 */
module LegacyDefects {
  import opened Wrappers
  import opened Defects

  /** The persisted form of this revision: `DefectState` without `GarageId`. */
  datatype LegacyDefectState = LegacyDefectState(
    id: string, defectObject: string, location: string,
    shortDesc: Option<string>, detailedDesc: Option<string>,
    reportingDate: int, status: Option<string>, imageNames: seq<string>, lastModifiedAt: int)

  /** What `fromState` makes of a state: the status goes through the name lookup. */
  function RestoredLegacy(dto: LegacyDefectState): (r: LegacyDefectState)
    ensures r.status == StatusName(ParseStatus(dto.status))
    ensures r == dto <==> dto.status.None? || dto.status.value in StatusNames
  {
    NameRoundTrip(dto.status);
    dto.(status := StatusName(ParseStatus(dto.status)))
  }

  class LegacyDefect {
    /** A plain public field in this revision. */
    var id: string
    var status: Option<DefectReportStatus>
    var imageNames: seq<string>
    var lastModifiedAt: int
    var reportingDate: int
    var defectObject: string
    var location: string
    var shortDesc: Option<string>
    var detailedDesc: Option<string>

    /** A fresh report: open, no images, empty descriptions, last modified when reported. */
    constructor (defectObject: string, location: string, newId: string, now: int)
      ensures id == newId && this.defectObject == defectObject && this.location == location
      ensures status == Some(Open) && imageNames == []
      ensures shortDesc == Some("") && detailedDesc == Some("")
      ensures reportingDate == now && lastModifiedAt == reportingDate
    {
      id := newId;
      imageNames := [];
      this.defectObject := defectObject;
      this.location := location;
      reportingDate := now;
      status := Some(Open);
      shortDesc := Some("");
      detailedDesc := Some("");
      lastModifiedAt := now;
    }

    /** `fromState`: a defect carrying every field of the state. */
    constructor FromState(dto: LegacyDefectState)
      ensures ToState() == RestoredLegacy(dto)
      ensures status == ParseStatus(dto.status)
    {
      id := dto.id;
      defectObject := dto.defectObject;
      location := dto.location;
      shortDesc := dto.shortDesc;
      detailedDesc := dto.detailedDesc;
      status := ParseStatus(dto.status);
      imageNames := dto.imageNames;
      lastModifiedAt := dto.lastModifiedAt;
      reportingDate := dto.reportingDate;
    }

    /** `toState`: the persisted fields, status rendered by name and images copied. */
    function ToState(): LegacyDefectState
      reads this
    {
      LegacyDefectState(id, defectObject, location, shortDesc, detailedDesc,
                        reportingDate, StatusName(status), imageNames, lastModifiedAt)
    }

    /** Appends the name and changes nothing else. */
    method AddImage(name: string)
      modifies this
      ensures imageNames == old(imageNames) + [name]
      ensures ToState() == old(ToState()).(imageNames := old(imageNames) + [name])
    {
      imageNames := imageNames + [name];
    }

    /** Sets the status and the modification time, and nothing else. */
    method SetStatus(s: Option<DefectReportStatus>, now: int)
      modifies this
      ensures status == s && lastModifiedAt == now
      ensures ToState() == old(ToState()).(status := StatusName(s), lastModifiedAt := now)
    {
      status := s;
      lastModifiedAt := now;
    }
  }

  /** `fromState(toState(d))` agrees with `d` on every persisted field, status and images included. */
  lemma StateRoundTrip(d: LegacyDefect, e: LegacyDefect)
    requires e.ToState() == RestoredLegacy(d.ToState())
    ensures e.id == d.id && e.defectObject == d.defectObject && e.location == d.location
    ensures e.shortDesc == d.shortDesc && e.detailedDesc == d.detailedDesc
    ensures e.status == d.status && e.imageNames == d.imageNames
    ensures e.reportingDate == d.reportingDate && e.lastModifiedAt == d.lastModifiedAt
  {
    StatusRoundTrip(d.status);
    StatusRoundTrip(e.status);
  }
}
