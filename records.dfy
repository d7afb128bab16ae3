/**
 * Deal records as the mutable objects the table works on.  The editors assign to fields of
 * `row.original`, which is one of these objects, and the table's `data` array holds the very
 * objects of the seed array (`[...initialDeals]` copies the array, not the records).
 */
module Records {
  import opened Wrappers
  import opened Data
  import Deals

  class DealObj {
    var id: string
    var company: string
    var owner: string
    var stage: Stage
    var amount: int
    var status: string
    var created: string
    var closeDate: Option<string>
    var notes: Option<string>

    /** The record's current field values. */
    function Value(): Deal
      reads this
    {
      Deal(id, company, owner, stage, amount, status, created, closeDate, notes)
    }

    /** An object literal holding `d`. */
    constructor (d: Deal)
      ensures Value() == d
    {
      id, company, owner, stage, amount := d.id, d.company, d.owner, d.stage, d.amount;
      status, created, closeDate, notes := d.status, d.created, d.closeDate, d.notes;
    }

    /** `{ ...src, id: newId }`: a new object with `src`'s fields and another id. */
    constructor CopyWithId(src: DealObj, newId: string)
      ensures Value() == src.Value().(id := newId)
    {
      id, company, owner, stage, amount := newId, src.company, src.owner, src.stage, src.amount;
      status, created, closeDate, notes := src.status, src.created, src.closeDate, src.notes;
    }
  }

  /** The values the objects of `ds` currently hold, in order. */
  function Values(ds: seq<DealObj>): (vs: seq<Deal>)
    reads ds
    ensures |vs| == |ds|
    ensures forall k :: 0 <= k < |ds| ==> vs[k] == ds[k].Value()
  {
    if ds == [] then [] else [ds[0].Value()] + Values(ds[1..])
  }

  /** `ds` holds `before` except at `i`, which now holds `v`. */
  lemma ValuesAfterWrite(ds: seq<DealObj>, before: seq<Deal>, i: nat, v: Deal)
    requires |before| == |ds| && i < |ds| && ds[i].Value() == v
    requires forall k :: 0 <= k < |ds| && k != i ==> ds[k].Value() == before[k]
    ensures Values(ds) == before[i := v]
  {
  }

  /** Objects that hold `vs` pointwise have the snapshot `vs`. */
  lemma ValuesPointwise(ds: seq<DealObj>, vs: seq<Deal>)
    requires |vs| == |ds| && forall k :: 0 <= k < |ds| ==> ds[k].Value() == vs[k]
    ensures Values(ds) == vs
  {
  }

  /** No object occurs twice. */
  predicate Distinct(ds: seq<DealObj>) {
    forall i, j :: 0 <= i < j < |ds| ==> ds[i] != ds[j]
  }

  /** `ds.filter(d => d.id !== id)` on the objects themselves. */
  function KeepOthers(ds: seq<DealObj>, id: string): (r: seq<DealObj>)
    reads ds
    ensures |r| <= |ds|
    ensures forall k :: 0 <= k < |r| ==> r[k] in ds && r[k].id != id
  {
    if ds == [] then []
    else if ds[0].id == id then KeepOthers(ds[1..], id)
    else [ds[0]] + KeepOthers(ds[1..], id)
  }

  /** Filtering never repeats an object. */
  lemma {:induction false} KeepOthersDistinct(ds: seq<DealObj>, id: string)
    requires Distinct(ds)
    ensures Distinct(KeepOthers(ds, id))
  {
    if ds != [] {
      KeepOthersDistinct(ds[1..], id);
      var rest := KeepOthers(ds[1..], id);
      assert forall k :: 0 <= k < |rest| ==> rest[k] in ds[1..];
      assert ds[0] !in ds[1..];
    }
  }

  /** The filtered objects hold exactly the value-level deletion of what `ds` holds. */
  lemma {:induction false} KeepOthersValues(ds: seq<DealObj>, id: string)
    ensures Values(KeepOthers(ds, id)) == Deals.Deleted(Values(ds), id)
  {
    if ds != [] {
      KeepOthersValues(ds[1..], id);
      assert Values(ds) == [ds[0].Value()] + Values(ds[1..]);
      assert Values(ds)[1..] == Values(ds[1..]);
      if ds[0].id != id {
        var rest := KeepOthers(ds[1..], id);
        assert Values([ds[0]] + rest) == [ds[0].Value()] + Values(rest);
      }
    }
  }

  /** `[...ds, { ...row, id: row.id + "-copy" }]` on the objects: one fresh copy appended. */
  method AppendCopy(ds: seq<DealObj>, row: DealObj) returns (r: seq<DealObj>)
    ensures |r| == |ds| + 1 && r[..|ds|] == ds && fresh(r[|ds|])
    ensures Values(r) == old(Values(ds)) + [Deals.CopyOf(old(row.Value()))]
    ensures Distinct(ds) ==> Distinct(r)
  {
    ghost var before, original := Values(ds), row.Value();
    var copy := new DealObj.CopyWithId(row, row.id + "-copy");
    assert copy.Value() == Deals.CopyOf(original);
    assert forall k :: 0 <= k < |ds| ==> ds[k].Value() == before[k];
    r := ds + [copy];
    ValuesPointwise(r, before + [Deals.CopyOf(original)]);
  }

  /** Fresh, distinct objects holding `vs` in order (the module-level `deals` array). */
  method MakeObjects(vs: seq<Deal>) returns (ds: seq<DealObj>)
    ensures Distinct(ds) && Values(ds) == vs
    ensures forall k :: 0 <= k < |ds| ==> fresh(ds[k])
  {
    ds := [];
    while |ds| < |vs|
      invariant |ds| <= |vs| && Distinct(ds)
      invariant forall k :: 0 <= k < |ds| ==> fresh(ds[k]) && ds[k].Value() == vs[k]
    {
      var o := new DealObj(vs[|ds|]);
      ds := ds + [o];
    }
  }
}
