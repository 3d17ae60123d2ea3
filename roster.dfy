/**
 * The tenant roster: the JSON list of enterprise tenants kept in a storage bucket,
 * the add/remove edits the tenant-management scripts make to it, and its mapping
 * to the Terraform variable entries.
 */
module Roster {
  /** One roster entry, `{ "tenantId": ..., "dns": ... }`. */
  datatype TenantRecord = TenantRecord(tenantId: string, dns: string)

  predicate HasTenant(tenants: seq<TenantRecord>, id: string) {
    exists i :: 0 <= i < |tenants| && tenants[i].tenantId == id
  }

  /** No two entries share a tenant id. */
  predicate UniqueIds(tenants: seq<TenantRecord>) {
    forall i, j :: 0 <= i < j < |tenants| ==> tenants[i].tenantId != tenants[j].tenantId
  }

  /** The roster after adding a tenant: unchanged when the id is present, otherwise extended at the end. */
  function Added(tenants: seq<TenantRecord>, id: string, dns: string): seq<TenantRecord> {
    if HasTenant(tenants, id) then tenants else tenants + [TenantRecord(id, dns)]
  }

  /**
   * add_tenant: scans the list for the id and returns it untouched when found,
   * otherwise appends the new entry.
   */
  method AddTenant(tenants: seq<TenantRecord>, id: string, dns: string) returns (r: seq<TenantRecord>)
    ensures HasTenant(tenants, id) ==> r == tenants
    ensures !HasTenant(tenants, id) ==> r == tenants + [TenantRecord(id, dns)]
    ensures r == Added(tenants, id, dns)
  {
    for i := 0 to |tenants|
      invariant forall k :: 0 <= k < i ==> tenants[k].tenantId != id
    {
      if tenants[i].tenantId == id {
        return tenants;
      }
    }
    r := tenants + [TenantRecord(id, dns)];
  }

  /** remove_tenant: keeps, in order, every entry whose id differs from `id`. */
  function RemoveTenant(tenants: seq<TenantRecord>, id: string): (r: seq<TenantRecord>)
    ensures |r| <= |tenants|
    ensures !HasTenant(r, id)
    ensures forall x :: x in r ==> x in tenants
  {
    if tenants == [] then []
    else
      var rest := RemoveTenant(tenants[..|tenants| - 1], id);
      var last := tenants[|tenants| - 1];
      if last.tenantId == id then rest else rest + [last]
  }

  /** Adding makes the id present and keeps every earlier entry in place. */
  lemma AddedContains(tenants: seq<TenantRecord>, id: string, dns: string)
    ensures HasTenant(Added(tenants, id, dns), id)
    ensures |tenants| <= |Added(tenants, id, dns)| <= |tenants| + 1
    ensures Added(tenants, id, dns)[..|tenants|] == tenants
  {
    if !HasTenant(tenants, id) {
      assert Added(tenants, id, dns)[|tenants|].tenantId == id;
    }
  }

  /** A second add of the same id, whatever its dns, changes nothing. */
  lemma AddedIdempotent(tenants: seq<TenantRecord>, id: string, dns: string, dns2: string)
    ensures Added(Added(tenants, id, dns), id, dns2) == Added(tenants, id, dns)
  {
    AddedContains(tenants, id, dns);
  }

  /** Adding keeps tenant ids unique. */
  lemma AddedKeepsUnique(tenants: seq<TenantRecord>, id: string, dns: string)
    requires UniqueIds(tenants)
    ensures UniqueIds(Added(tenants, id, dns))
  {
  }

  /** remove_tenant distributes over concatenation: it is an order-preserving filter. */
  lemma {:induction false} RemoveTenantAppend(a: seq<TenantRecord>, b: seq<TenantRecord>, id: string)
    ensures RemoveTenant(a + b, id) == RemoveTenant(a, id) + RemoveTenant(b, id)
  {
    if b == [] {
      assert a + b == a;
    } else {
      var b' := b[..|b| - 1];
      assert (a + b)[..|a + b| - 1] == a + b';
      assert (a + b)[|a + b| - 1] == b[|b| - 1];
      RemoveTenantAppend(a, b', id);
    }
  }

  /** A single entry survives removal exactly when its id differs. */
  lemma RemoveTenantSingle(x: TenantRecord, id: string)
    ensures RemoveTenant([x], id) == if x.tenantId == id then [] else [x]
  {
    assert [x][..0] == [];
  }

  /** Removing an absent id leaves the roster unchanged. */
  lemma {:induction false} RemoveAbsent(tenants: seq<TenantRecord>, id: string)
    requires !HasTenant(tenants, id)
    ensures RemoveTenant(tenants, id) == tenants
  {
    if tenants != [] {
      var p := tenants[..|tenants| - 1];
      assert !HasTenant(p, id) by {
        forall i | 0 <= i < |p| ensures p[i].tenantId != id {
          assert p[i] == tenants[i];
        }
      }
      RemoveAbsent(p, id);
      assert tenants == p + [tenants[|tenants| - 1]];
    }
  }

  /** Every entry with another id survives removal. */
  lemma {:induction false} RemoveKeepsOthers(tenants: seq<TenantRecord>, id: string)
    ensures forall x :: x in tenants && x.tenantId != id ==> x in RemoveTenant(tenants, id)
  {
    if tenants != [] {
      var p := tenants[..|tenants| - 1];
      RemoveKeepsOthers(p, id);
      assert tenants == p + [tenants[|tenants| - 1]];
    }
  }

  /** Removing twice is the same as removing once. */
  lemma RemoveIdempotent(tenants: seq<TenantRecord>, id: string)
    ensures RemoveTenant(RemoveTenant(tenants, id), id) == RemoveTenant(tenants, id)
  {
    RemoveAbsent(RemoveTenant(tenants, id), id);
  }

  /** Removal keeps the surviving entries in their original relative order, so ids stay unique. */
  lemma {:induction false} RemoveKeepsUnique(tenants: seq<TenantRecord>, id: string)
    requires UniqueIds(tenants)
    ensures UniqueIds(RemoveTenant(tenants, id))
  {
    if tenants != [] {
      var p := tenants[..|tenants| - 1];
      var last := tenants[|tenants| - 1];
      assert UniqueIds(p);
      RemoveKeepsUnique(p, id);
      var rest := RemoveTenant(p, id);
      forall x | x in rest ensures x.tenantId != last.tenantId {
        var i :| 0 <= i < |p| && p[i] == x;
        assert tenants[i] == x;
      }
    }
  }

  /** Adding a new tenant and removing it again restores the roster. */
  lemma AddThenRemove(tenants: seq<TenantRecord>, id: string, dns: string)
    requires !HasTenant(tenants, id)
    ensures RemoveTenant(Added(tenants, id, dns), id) == tenants
  {
    RemoveTenantAppend(tenants, [TenantRecord(id, dns)], id);
    RemoveTenantSingle(TenantRecord(id, dns), id);
    RemoveAbsent(tenants, id);
  }

  /** One Terraform variable entry `{ "id": tenantId, "domain": dns }`. */
  datatype TfTenant = TfTenant(id: string, domain: string)

  /** The roster mapped entry by entry to Terraform variable entries. */
  function TfTenants(tenants: seq<TenantRecord>): (r: seq<TfTenant>)
    ensures |r| == |tenants|
    ensures forall i :: 0 <= i < |tenants| ==> r[i] == TfTenant(tenants[i].tenantId, tenants[i].dns)
  {
    if tenants == [] then []
    else
      var last := tenants[|tenants| - 1];
      TfTenants(tenants[..|tenants| - 1]) + [TfTenant(last.tenantId, last.dns)]
  }
}
