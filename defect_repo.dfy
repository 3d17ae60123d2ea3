/**
 * InMemoryDefectRepo.ts: defects kept in a list, in insertion order. The repository holds
 * references, so a defect fetched from it and then changed is changed inside it too.
 */
module DefectRepo {
  import opened Wrappers
  import opened Defects

  /** `findIndex` by id: the first position holding the id, or -1. */
  function FindIndex(ds: seq<Defect>, id: string): (i: int)
    ensures -1 <= i < |ds|
    ensures i >= 0 ==> ds[i].id == id
    ensures forall j :: 0 <= j < |ds| && (i == -1 || j < i) ==> ds[j].id != id
  {
    if ds == [] then -1
    else if ds[0].id == id then 0
    else
      var k := FindIndex(ds[1..], id);
      if k == -1 then -1 else k + 1
  }

  /** The id occurs in the list. */
  predicate Holds(ds: seq<Defect>, id: string) {
    exists d :: d in ds && d.id == id
  }

  lemma FindIndexHolds(ds: seq<Defect>, id: string)
    ensures FindIndex(ds, id) >= 0 <==> Holds(ds, id)
  {
    var i := FindIndex(ds, id);
    if i >= 0 {
      assert ds[i] in ds;
    }
  }

  /** `filter(d => d.Id != id)`. */
  function Without(ds: seq<Defect>, id: string): (r: seq<Defect>)
    ensures |r| <= |ds|
    ensures forall d :: d in r ==> d in ds && d.id != id
  {
    if ds == [] then []
    else (if ds[0].id == id then [] else [ds[0]]) + Without(ds[1..], id)
  }

  /** Filtering distributes over concatenation, so the survivors keep their relative order. */
  lemma {:induction false} WithoutAppend(a: seq<Defect>, b: seq<Defect>, id: string)
    ensures Without(a + b, id) == Without(a, id) + Without(b, id)
  {
    if a != [] {
      assert (a + b)[1..] == a[1..] + b;
      WithoutAppend(a[1..], b, id);
    } else {
      assert a + b == b;
    }
  }

  /** Every defect with another id survives; an absent id leaves the list unchanged. */
  lemma {:induction false} WithoutKeeps(ds: seq<Defect>, id: string)
    ensures forall d :: d in ds && d.id != id ==> d in Without(ds, id)
    ensures !Holds(ds, id) ==> Without(ds, id) == ds
  {
    if ds != [] {
      WithoutKeeps(ds[1..], id);
      if !Holds(ds, id) {
        assert !Holds(ds[1..], id) by {
          forall d | d in ds[1..] ensures d.id != id {
            assert d in ds;
          }
        }
        assert ds == [ds[0]] + ds[1..];
      }
    }
  }

  /** Deleting is idempotent. */
  lemma WithoutIdempotent(ds: seq<Defect>, id: string)
    ensures Without(Without(ds, id), id) == Without(ds, id)
  {
    WithoutKeeps(Without(ds, id), id);
  }

  /** A defect appended to a list without its id is the first match for that id. */
  lemma FindAfterAppend(ds: seq<Defect>, d: Defect)
    requires FindIndex(ds, d.id) == -1
    ensures FindIndex(ds + [d], d.id) == |ds|
  {
    assert (ds + [d])[|ds|].id == d.id;
    assert forall j :: 0 <= j < |ds| ==> (ds + [d])[j] == ds[j];
  }

  class InMemoryDefectRepo {
    var defects: seq<Defect>

    constructor ()
      ensures defects == []
    {
      defects := [];
    }

    method GetAllDefects() returns (all: seq<Defect>)
      ensures all == defects
    {
      all := defects;
    }

    /** Appends, with no check for a defect with the same id. */
    method AddDefect(d: Defect)
      modifies this
      ensures defects == old(defects) + [d]
    {
      defects := defects + [d];
    }

    /** Replaces the first defect with the same id and reports whether there was one. */
    method UpdateDefect(d: Defect) returns (updated: bool)
      modifies this
      ensures var i := FindIndex(old(defects), d.id);
        && (updated <==> i >= 0)
        && defects == (if i >= 0 then old(defects)[i := d] else old(defects))
    {
      var index := FindIndex(defects, d.id);
      if index != -1 {
        defects := defects[index := d];
        return true;
      }
      return false;
    }

    /** The first defect with the id, or the error "Defect not found". */
    method GetDefect(id: string) returns (r: Result<Defect, string>)
      ensures var i := FindIndex(defects, id);
        && (i >= 0 ==> r == Success(defects[i]))
        && (i == -1 ==> r == Failure("Defect not found"))
    {
      var index := FindIndex(defects, id);
      if index != -1 {
        return Success(defects[index]);
      }
      return Failure("Defect not found");
    }

    /** Removes every defect with the id; never fails. */
    method DeleteDefect(id: string)
      modifies this
      ensures defects == Without(old(defects), id)
    {
      defects := Without(defects, id);
    }
  }

  /** A defect added to a repository that lacks its id is what a lookup of that id returns. */
  lemma GetAfterAdd(before: seq<Defect>, d: Defect)
    requires !Holds(before, d.id)
    ensures var i := FindIndex(before + [d], d.id); i >= 0 && (before + [d])[i] == d
  {
    FindIndexHolds(before, d.id);
    FindAfterAppend(before, d);
  }
}
