/**
 * Value-level meaning of the record-list operations of components/DealsTable.tsx:
 * the editors' field writes, the amount commit, the row menu's duplicate and delete,
 * and the footer totals.  The table (module Table) performs these on shared objects
 * and its contracts are stated with the functions here.
 */
module Deals {
  import opened Wrappers
  import opened Data
  import Numbers

  /** The columns rendered with the free-text editor `EditableTextCell`. */
  datatype TextColumn = Company | Owner | Status | Created | Notes

  /** The value the text editor reads (`getValue()`); only `notes` can be undefined. */
  function TextOf(d: Deal, c: TextColumn): (v: Option<string>)
    ensures c != Notes ==> v.Some?
  {
    match c
    case Company => Some(d.company)
    case Owner => Some(d.owner)
    case Status => Some(d.status)
    case Created => Some(d.created)
    case Notes => d.notes
  }

  /** The fields no editor of the table writes. */
  predicate SameKey(d: Deal, e: Deal) {
    d.id == e.id && d.closeDate == e.closeDate
  }

  /** `row.original[column.id] = value`: the text editor's commit. */
  function WriteText(d: Deal, c: TextColumn, v: Option<string>): (r: Deal)
    requires c == Notes || v.Some?
    ensures TextOf(r, c) == v
    ensures forall c' :: c' != c ==> TextOf(r, c') == TextOf(d, c')
    ensures SameKey(r, d) && r.stage == d.stage && r.amount == d.amount
  {
    match c
    case Company => d.(company := v.value)
    case Owner => d.(owner := v.value)
    case Status => d.(status := v.value)
    case Created => d.(created := v.value)
    case Notes => d.(notes := v)
  }

  /** Writing back what the editor read leaves the record as it was. */
  lemma WriteTextUnchanged(d: Deal, c: TextColumn)
    ensures WriteText(d, c, TextOf(d, c)) == d
  {
  }

  /**
   * The text editor keeps a record well typed except on the status column, where it keeps
   * it well typed exactly when the text is one of the four status literals.
   */
  lemma WriteTextWellTyped(d: Deal, c: TextColumn, v: Option<string>)
    requires WellTyped(d) && (c == Notes || v.Some?)
    ensures WellTyped(WriteText(d, c, v)) <==> (c != Status || IsStatus(v.value))
  {
  }

  /** The status column accepts a status no record may have, e.g. "Closed". */
  lemma StatusTextEscapesUnion(d: Deal)
    ensures !WellTyped(WriteText(d, Status, Some("Closed")))
  {
    assert "Closed" != "Open" && "Closed" != "On Hold" && "Closed" != "Won" && "Closed" != "Lost";
  }

  /** `row.original.stage = s`: the stage editor's commit. */
  function WriteStage(d: Deal, s: Stage): (r: Deal)
    ensures r.stage == s
    ensures forall c :: TextOf(r, c) == TextOf(d, c)
    ensures SameKey(r, d) && r.amount == d.amount
    ensures WellTyped(d) ==> WellTyped(r)
  {
    d.(stage := s)
  }

  /**
   * The amount editor's commit of the text `text`: the parsed number when `Number` does not
   * give NaN once commas and spaces are gone, else the record unchanged.
   */
  function CommitAmount(d: Deal, text: string): (r: Deal)
    ensures Numbers.ParseNumber(Numbers.StripSeparators(text)).None? ==> r == d
    ensures var p := Numbers.ParseNumber(Numbers.StripSeparators(text));
      p.Some? ==> r == d.(amount := p.value)
    ensures forall c :: TextOf(r, c) == TextOf(d, c)
    ensures SameKey(r, d) && r.stage == d.stage
    ensures WellTyped(d) ==> WellTyped(r)
  {
    match Numbers.ParseNumber(Numbers.StripSeparators(text))
    case Some(n) => d.(amount := n)
    case None => d
  }

  /** Committing the text the editor was seeded with (`v.toString()`) changes nothing. */
  lemma CommitUntouchedAmount(d: Deal)
    ensures CommitAmount(d, Numbers.IntToString(d.amount)) == d
  {
    Numbers.ParseUntouched(d.amount);
  }

  /** Non-numeric text such as "abc" leaves the amount as it was. */
  lemma CommitLettersKeepsAmount(d: Deal)
    ensures CommitAmount(d, "abc") == d
  {
    assert Numbers.StripSeparators("abc") == "abc";
    Numbers.ParseRejectsForeign("abc", 0);
  }

  /** An empty input commits 0, because `Number("")` is 0. */
  lemma CommitEmptyIsZero(d: Deal)
    ensures CommitAmount(d, "") == d.(amount := 0)
  {
  }

  /** Grouping commas and spaces are ignored: "12,000 " commits 12000. */
  lemma CommitGroupedAmount(d: Deal)
    ensures CommitAmount(d, "12,000 ") == d.(amount := 12000)
  {
    Numbers.ParseGrouped();
  }

  /** The record the Duplicate action appends: `{ ...row, id: row.id + "-copy" }`. */
  function CopyOf(d: Deal): (r: Deal)
    ensures r.id == d.id + "-copy" && r.id != d.id
    ensures forall c :: TextOf(r, c) == TextOf(d, c)
    ensures r.stage == d.stage && r.amount == d.amount && r.closeDate == d.closeDate
    ensures WellTyped(d) ==> WellTyped(r)
  {
    d.(id := d.id + "-copy")
  }

  /** The Duplicate action: `[...ds, { ...row, id: row.id + "-copy" }]`. */
  function Duplicated(ds: seq<Deal>, i: nat): (r: seq<Deal>)
    requires i < |ds|
    ensures |r| == |ds| + 1 && r[..|ds|] == ds
    ensures r[|ds|] == CopyOf(ds[i])
  {
    ds + [CopyOf(ds[i])]
  }

  /** Ids stop being unique once the same row is duplicated twice. */
  lemma DuplicateTwiceCollides(ds: seq<Deal>, i: nat)
    requires i < |ds|
    ensures var r := Duplicated(Duplicated(ds, i), i); r[|ds|].id == r[|ds| + 1].id
  {
  }

  /** Duplication keeps every record well typed. */
  lemma DuplicatedWellTyped(ds: seq<Deal>, i: nat)
    requires i < |ds| && forall k :: 0 <= k < |ds| ==> WellTyped(ds[k])
    ensures forall k :: 0 <= k < |ds| + 1 ==> WellTyped(Duplicated(ds, i)[k])
  {
  }

  /** The Delete action: `ds.filter(d => d.id !== id)`. */
  function Deleted(ds: seq<Deal>, id: string): (r: seq<Deal>)
    ensures |r| <= |ds|
    ensures forall k :: 0 <= k < |r| ==> r[k].id != id && r[k] in ds
  {
    if ds == [] then []
    else if ds[0].id == id then Deleted(ds[1..], id)
    else [ds[0]] + Deleted(ds[1..], id)
  }

  /**
   * Delete removes every record carrying the id and nothing else: each other record keeps its
   * number of occurrences.
   */
  lemma {:induction false} DeletedCounts(ds: seq<Deal>, id: string, d: Deal)
    ensures multiset(Deleted(ds, id))[d] == if d.id == id then 0 else multiset(ds)[d]
  {
    if ds != [] {
      DeletedCounts(ds[1..], id, d);
      assert ds == [ds[0]] + ds[1..];
      CountCons(ds[0], ds[1..], d);
      if ds[0].id != id {
        CountCons(ds[0], Deleted(ds[1..], id), d);
      }
    }
  }

  /** A record's number of occurrences in `[x] + s`. */
  lemma CountCons(x: Deal, s: seq<Deal>, d: Deal)
    ensures multiset([x] + s)[d] == (if x == d then 1 else 0) + multiset(s)[d]
  {
  }

  /** Delete works piecewise, so the records it keeps stay in their relative order. */
  lemma {:induction false} DeletedAppend(a: seq<Deal>, b: seq<Deal>, id: string)
    ensures Deleted(a + b, id) == Deleted(a, id) + Deleted(b, id)
  {
    if a == [] {
      assert a + b == b;
    } else {
      assert (a + b)[0] == a[0] && (a + b)[1..] == a[1..] + b;
      DeletedAppend(a[1..], b, id);
    }
  }

  /** Deleting an id no record carries changes nothing. */
  lemma {:induction false} DeletedAbsent(ds: seq<Deal>, id: string)
    requires forall k :: 0 <= k < |ds| ==> ds[k].id != id
    ensures Deleted(ds, id) == ds
  {
    if ds != [] {
      DeletedAbsent(ds[1..], id);
    }
  }

  /** Deleting a copy's id after two duplications removes both copies. */
  lemma DeleteCopyRemovesBoth(ds: seq<Deal>, i: nat)
    requires i < |ds| && forall k :: 0 <= k < |ds| ==> ds[k].id != ds[i].id + "-copy"
    ensures Deleted(Duplicated(Duplicated(ds, i), i), ds[i].id + "-copy") == ds
  {
    var id := ds[i].id + "-copy";
    var c := ds[i].(id := id);
    assert Duplicated(Duplicated(ds, i), i) == ds + ([c] + [c]);
    DeletedAppend(ds, [c] + [c], id);
    DeletedAbsent(ds, id);
    assert Deleted([c] + [c], id) == [];
  }

  /** `data.reduce((acc, d) => acc + (d.amount ?? 0), 0)`. */
  function Sum(ds: seq<Deal>): (r: int)
    ensures ds == [] ==> r == 0
    ensures |ds| == 1 ==> r == ds[0].amount
    ensures (forall k :: 0 <= k < |ds| ==> ds[k].amount >= 0) ==> r >= 0
  {
    if ds == [] then 0 else Sum(ds[..|ds| - 1]) + ds[|ds| - 1].amount
  }

  lemma {:induction false} SumAppend(a: seq<Deal>, b: seq<Deal>)
    ensures Sum(a + b) == Sum(a) + Sum(b)
    decreases |b|
  {
    if b == [] {
      assert a + b == a;
    } else {
      assert (a + b)[..|a + b| - 1] == a + b[..|b| - 1];
      SumAppend(a, b[..|b| - 1]);
    }
  }

  /** The footer's figures; the mean is exact here (the display rounds it). */
  datatype Totals = Totals(count: nat, sum: int, avg: real)

  function TotalsOf(ds: seq<Deal>): (t: Totals)
    ensures t.count == |ds| && t.sum == Sum(ds)
    ensures t.count == 0 ==> t.avg == 0.0
    ensures t.count > 0 ==> t.avg * t.count as real == t.sum as real
  {
    Totals(|ds|, Sum(ds), if |ds| == 0 then 0.0 else Sum(ds) as real / |ds| as real)
  }

  /** Duplicating a row adds its amount to the total once more. */
  lemma DuplicatedSum(ds: seq<Deal>, i: nat)
    requires i < |ds|
    ensures Sum(Duplicated(ds, i)) == Sum(ds) + ds[i].amount
  {
    var r := Duplicated(ds, i);
    assert r[..|r| - 1] == ds;
  }

  /** The first five seed amounts: 12000 + 30000 + 55000 + 18000 + 25000. */
  lemma SeedSumFirstFive()
    ensures Sum(Seed()[..5]) == 140000
  {
    var s := Seed()[..5];
    assert s[..1][..0] == [];
    assert Sum(s[..1]) == 12000;
    assert s[..2][..1] == s[..1];
    assert Sum(s[..2]) == 42000;
    assert s[..3][..2] == s[..2];
    assert Sum(s[..3]) == 97000;
    assert s[..4][..3] == s[..3];
    assert Sum(s[..4]) == 115000;
    assert s[..5][..4] == s[..4];
    assert s == s[..5];
  }

  /** The last five seed amounts: 42000 + 8000 + 76000 + 19500 + 15000. */
  lemma SeedSumLastFive()
    ensures Sum(Seed()[5..]) == 160500
  {
    var s := Seed()[5..];
    assert s[..1][..0] == [];
    assert Sum(s[..1]) == 42000;
    assert s[..2][..1] == s[..1];
    assert Sum(s[..2]) == 50000;
    assert s[..3][..2] == s[..2];
    assert Sum(s[..3]) == 126000;
    assert s[..4][..3] == s[..3];
    assert Sum(s[..4]) == 145500;
    assert s[..5][..4] == s[..4];
    assert s == s[..5];
  }

  /** The totals of the seed list: ten deals worth 300500 in all, 30050 on average. */
  lemma SeedTotals()
    ensures TotalsOf(Seed()) == Totals(10, 300500, 30050.0)
  {
    var s := Seed();
    SeedSumFirstFive();
    SeedSumLastFive();
    SumAppend(s[..5], s[5..]);
    assert s[..5] + s[5..] == s;
  }
}
