/**
 * The storage bucket the deployment and tenant-management scripts share: a map from
 * object name to its JSON content. An absent key is an object that does not exist.
 */
module Store {
  import opened Wrappers
  import opened Roster

  /** The two JSON documents kept in the bucket. */
  datatype Blob =
    | TenantList(tenants: seq<TenantRecord>)   // tenants.json / enterprise-tenants.json
    | DeploymentInfo(gitTag: string)            // deployment.json, `{"git_tag": ...}`

  /**
   * Reading a roster: a missing object reads as the empty list; an object that is not a
   * list of tenants is a failure, which the scripts meet where they first iterate the roster.
   */
  function RosterOf(blob: Option<Blob>): (r: Result<seq<TenantRecord>, string>)
    ensures blob.None? ==> r == Success([])
    ensures r.Success? <==> blob.None? || blob.value.TenantList?
    ensures blob.Some? && blob.value.TenantList? ==> r == Success(blob.value.tenants)
  {
    match blob
    case None => Success([])
    case Some(TenantList(tenants)) => Success(tenants)
    case Some(DeploymentInfo(_)) => Failure("roster is not a list of tenants")
  }

  /** The object stored under `key`, if any. */
  function Lookup(blobs: map<string, Blob>, key: string): Option<Blob> {
    if key in blobs then Some(blobs[key]) else None
  }

  /**
   * Reading the deployment info as written: a missing object yields an empty dict, whose
   * `git_tag` attribute does not exist, so the script fails; a list cannot be unpacked into it.
   */
  function StoredTagAsWritten(blob: Option<Blob>): (r: Result<string, string>)
    ensures r.Success? <==> blob.Some? && blob.value.DeploymentInfo?
  {
    match blob
    case None => Failure("empty dict has no attribute git_tag")
    case Some(DeploymentInfo(tag)) => Success(tag)
    case Some(TenantList(_)) => Failure("deployment info is not an object")
  }

  /**
   * Reading the deployment info as intended: a missing object is the default deployment info,
   * whose tag is empty.
   */
  function StoredTag(blob: Option<Blob>): (r: Result<string, string>)
    ensures r.Success? <==> blob.None? || blob.value.DeploymentInfo?
    ensures blob.None? ==> r == Success("")
  {
    match blob
    case None => Success("")
    case Some(DeploymentInfo(tag)) => Success(tag)
    case Some(TenantList(_)) => Failure("deployment info is not an object")
  }

  /** Writing a tag and reading it back yields the same tag, in both readings. */
  lemma TagRoundTrip(blobs: map<string, Blob>, key: string, tag: string)
    ensures StoredTag(Lookup(blobs[key := DeploymentInfo(tag)], key)) == Success(tag)
    ensures StoredTagAsWritten(Lookup(blobs[key := DeploymentInfo(tag)], key)) == Success(tag)
  {
  }

  /** The two readings differ exactly on a missing object: the one as written fails there. */
  lemma MissingDeploymentInfo(blob: Option<Blob>)
    ensures StoredTag(blob) != StoredTagAsWritten(blob) <==> blob.None?
    ensures StoredTagAsWritten(None).Failure?
  {
  }

  /** The object recording the deployed version. */
  const DeploymentFile := "deployment.json"

  /** The tag to deploy: the one given on the command line, else the one stored in the bucket. */
  function TagToDeploy(given: string, blobs: map<string, Blob>): (r: Result<string, string>)
    ensures given != "" ==> r == Success(given)
    ensures given == "" && DeploymentFile !in blobs ==> r == Success("")
  {
    if given != "" then Success(given) else StoredTag(Lookup(blobs, DeploymentFile))
  }

  /** The bucket after the tag step: a given tag is recorded as the current deployment info. */
  function RecordTag(given: string, blobs: map<string, Blob>): map<string, Blob> {
    if given != "" then blobs[DeploymentFile := DeploymentInfo(given)] else blobs
  }

  /** The tag step of both deployment scripts: a given tag is recorded in the bucket, otherwise the stored one is read. */
  method ResolveTag(bucket: BlobStore, given: string) returns (tag: Result<string, string>)
    modifies bucket
    ensures tag == TagToDeploy(given, old(bucket.blobs))
    ensures bucket.blobs == RecordTag(given, old(bucket.blobs))
  {
    if given != "" {
      bucket.Write(DeploymentFile, DeploymentInfo(given));
      tag := Success(given);
    } else {
      var infoBlob := bucket.Read(DeploymentFile);
      tag := StoredTag(infoBlob);
    }
  }

  /** A run given a tag makes every later run given none deploy that same tag, and leaves the bucket alone. */
  lemma TagPersists(given: string, blobs: map<string, Blob>)
    requires given != ""
    ensures TagToDeploy("", RecordTag(given, blobs)) == Success(given)
    ensures RecordTag("", RecordTag(given, blobs)) == RecordTag(given, blobs)
    ensures forall key :: key != DeploymentFile ==> Lookup(RecordTag(given, blobs), key) == Lookup(blobs, key)
  {
    TagRoundTrip(blobs, DeploymentFile, given);
  }

  class BlobStore {
    var blobs: map<string, Blob>

    constructor(initial: map<string, Blob>)
      ensures blobs == initial
    {
      blobs := initial;
    }

    /** Download an object, or nothing when it does not exist. */
    method Read(key: string) returns (blob: Option<Blob>)
      ensures blob == Lookup(blobs, key)
      ensures key in blobs <==> blob.Some?
    {
      blob := if key in blobs then Some(blobs[key]) else None;
    }

    /** Upload an object, replacing any previous content. */
    method Write(key: string, blob: Blob)
      modifies this
      ensures blobs == old(blobs)[key := blob]
    {
      blobs := blobs[key := blob];
    }
  }
}
