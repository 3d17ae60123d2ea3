/**
 * manage_enterprise_tenants.py and manage-tenants.py: read the tenant roster from the bucket,
 * add or remove one tenant, and write the roster back. The legacy script also refuses an add
 * without a dns value.
 */
module ManageTenants {
  import opened Wrappers
  import opened Roster
  import opened Store

  const EnterpriseRosterFile := "enterprise-tenants.json"

  /** `--action`, restricted by the argument parser to these two. */
  datatype RosterAction = Add | Remove

  /** The roster after the single requested change. */
  function Updated(tenants: seq<TenantRecord>, action: RosterAction, id: string, dns: string): seq<TenantRecord> {
    match action
    case Add => Added(tenants, id, dns)
    case Remove => RemoveTenant(tenants, id)
  }

  /** Either change keeps tenant ids unique, and repeating it changes nothing more. */
  lemma UpdatedKeepsUniqueAndSettles(tenants: seq<TenantRecord>, action: RosterAction, id: string, dns: string)
    requires UniqueIds(tenants)
    ensures UniqueIds(Updated(tenants, action, id, dns))
    ensures Updated(Updated(tenants, action, id, dns), action, id, dns) == Updated(tenants, action, id, dns)
    ensures action.Add? ==> HasTenant(Updated(tenants, action, id, dns), id)
    ensures action.Remove? ==> !HasTenant(Updated(tenants, action, id, dns), id)
  {
    match action
    case Add =>
      AddedKeepsUnique(tenants, id, dns);
      AddedIdempotent(tenants, id, dns, dns);
      AddedContains(tenants, id, dns);
    case Remove =>
      RemoveKeepsUnique(tenants, id);
      RemoveIdempotent(tenants, id);
  }

  /** Applies the change, scanning for the id on an add. */
  method Update(tenants: seq<TenantRecord>, action: RosterAction, id: string, dns: string) returns (r: seq<TenantRecord>)
    ensures r == Updated(tenants, action, id, dns)
  {
    if action.Add? {
      r := AddTenant(tenants, id, dns);
    } else {
      r := RemoveTenant(tenants, id);
    }
  }

  /**
   * manage_enterprise_tenants.py main: read enterprise-tenants.json (missing = empty), apply
   * exactly one change, write the result back. A roster that is not a list fails the run
   * before anything is written.
   */
  method ManageEnterpriseTenants(bucket: BlobStore, action: RosterAction, id: string, subdomain: string) returns (ok: bool)
    modifies bucket
    ensures var roster := RosterOf(Lookup(old(bucket.blobs), EnterpriseRosterFile));
      && (ok <==> roster.Success?)
      && (ok ==> bucket.blobs == old(bucket.blobs)[EnterpriseRosterFile := TenantList(Updated(roster.value, action, id, subdomain))])
      && (!ok ==> bucket.blobs == old(bucket.blobs))
  {
    var blob := bucket.Read(EnterpriseRosterFile);
    var roster := RosterOf(blob);
    if roster.Failure? {
      return false;
    }
    var tenants := Update(roster.value, action, id, subdomain);
    bucket.Write(EnterpriseRosterFile, TenantList(tenants));
    ok := true;
  }

  /**
   * manage-tenants.py main: read the roster file (missing = empty); an add without a non-empty
   * dns is rejected before any change; otherwise apply the change and always write back.
   */
  method ManageTenants(bucket: BlobStore, file: string, action: RosterAction, id: string, dns: Option<string>) returns (ok: bool)
    modifies bucket
    ensures var roster := RosterOf(Lookup(old(bucket.blobs), file));
            var missingDns := action.Add? && (dns.None? || dns.value == "");
      && (ok <==> roster.Success? && !missingDns)
      && (ok ==> bucket.blobs == old(bucket.blobs)[file := TenantList(Updated(roster.value, action, id, dns.GetOr("")))])
      && (!ok ==> bucket.blobs == old(bucket.blobs))
  {
    var blob := bucket.Read(file);
    var roster := RosterOf(blob);
    if roster.Failure? {
      return false;
    }
    if action.Add? && (dns.None? || dns.value == "") {
      return false;
    }
    var tenants := Update(roster.value, action, id, dns.GetOr(""));
    bucket.Write(file, TenantList(tenants));
    ok := true;
  }

  /** Running the same change twice leaves the bucket as running it once. */
  lemma RepeatedRunSettles(blobs: map<string, Blob>, file: string, action: RosterAction, id: string, dns: string)
    requires RosterOf(Lookup(blobs, file)).Success? && UniqueIds(RosterOf(Lookup(blobs, file)).value)
    ensures var once := blobs[file := TenantList(Updated(RosterOf(Lookup(blobs, file)).value, action, id, dns))];
      && RosterOf(Lookup(once, file)).Success?
      && once[file := TenantList(Updated(RosterOf(Lookup(once, file)).value, action, id, dns))] == once
  {
    UpdatedKeepsUniqueAndSettles(RosterOf(Lookup(blobs, file)).value, action, id, dns);
  }
}
