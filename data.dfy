/**
 * The deal record and the seed list of lib/data.ts.
 *
 * `stage` and `status` are TypeScript string-literal unions.  `stage` is only ever written
 * with one of its four literals, so it is a datatype here; `status` is a plain string because
 * the table's status column is edited with the free-text editor (see module Deals), and
 * `IsStatus` says when it still holds one of its four literals.
 */
module Data {
  import opened Wrappers

  datatype Stage = New | Qualified | Won | Lost

  /** The literal a stage carries in the source. */
  function StageName(s: Stage): (name: string)
    ensures name in ["New", "Qualified", "Won", "Lost"]
  {
    match s
    case New => "New"
    case Qualified => "Qualified"
    case Won => "Won"
    case Lost => "Lost"
  }

  /** The four literals of the `status` union, in declaration order. */
  const StatusNames: seq<string> := ["Open", "On Hold", "Won", "Lost"]

  predicate IsStatus(text: string) {
    text in StatusNames
  }

  datatype Deal = Deal(
    id: string,
    company: string,
    owner: string,
    stage: Stage,
    amount: int,
    status: string,
    created: string,
    closeDate: Option<string>,
    notes: Option<string>)

  /** The record satisfies its TypeScript type (the stage union holds by construction). */
  predicate WellTyped(d: Deal) {
    IsStatus(d.status)
  }

  /** The `deals` constant: the initial contents of the table. */
  function Seed(): (s: seq<Deal>)
    ensures |s| == 10
  {
    [ Deal("D-1001", "Acme Corp", "Alice", New, 12000, "Open", "2025-05-01", None, Some("Lead from webinar")),
      Deal("D-1002", "Globex Inc", "Bob", Qualified, 30000, "Open", "2025-06-15", None, Some("Budget approved")),
      Deal("D-1003", "Initech", "Carol", Won, 55000, "Won", "2025-02-10", Some("2025-03-05"), Some("Annual contract")),
      Deal("D-1004", "Umbrella Co.", "David", Lost, 18000, "Lost", "2025-01-22", None, Some("Chose competitor")),
      Deal("D-1005", "Soylent", "Eve", Qualified, 25000, "Open", "2025-05-21", None, Some("")),
      Deal("D-1006", "Stark Industries", "Frank", New, 42000, "On Hold", "2025-07-12", None, Some("Needs legal review")),
      Deal("D-1007", "Wayne Enterprises", "Alice", New, 8000, "Open", "2025-06-03", None, None),
      Deal("D-1008", "Wonka Factory", "Bob", Won, 76000, "Won", "2025-03-18", Some("2025-04-10"), None),
      Deal("D-1009", "Tyrell Corp", "Carol", Qualified, 19500, "Open", "2025-05-29", None, None),
      Deal("D-1010", "Hooli", "Eve", New, 15000, "Open", "2025-07-01", None, None) ]
  }

  /** Distinct stages carry distinct literals. */
  lemma StageNamesDistinct(s: Stage, t: Stage)
    ensures StageName(s) == StageName(t) <==> s == t
  {
  }

  /** Every seed record carries a status from the union. */
  lemma SeedWellTyped()
    ensures forall i :: 0 <= i < |Seed()| ==> WellTyped(Seed()[i])
  {
  }

  /** No two seed records share an id. */
  lemma SeedIdsDistinct()
    ensures forall i, j :: 0 <= i < j < |Seed()| ==> Seed()[i].id != Seed()[j].id
  {
  }

  /** Every seed amount is positive. */
  lemma SeedAmountsPositive()
    ensures forall i :: 0 <= i < |Seed()| ==> Seed()[i].amount > 0
  {
  }
}
