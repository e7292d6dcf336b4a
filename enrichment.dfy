/**
 * Enrichment of the fetched table (the block after `fetch_data()`): the
 * scrape date is reformatted, `TRANSPORT CORPORATION` and `STATE` are
 * inserted from the provider label, and the index becomes the 1-based `S.No`.
 */
module Enrichment {
  import opened Seqs
  import opened Listings
  import opened Transport

  /** `S.No` runs 1, 2, 3, ... in table order. */
  ghost predicate Numbered(table: seq<Row>)
  {
    forall i :: 0 <= i < |table| ==> table[i].sNo == i + 1
  }

  /**
   * Builds the enriched table from the fetched rows. `formatDate` stands for
   * `pd.to_datetime(...).dt.strftime('%d-%m-%Y')`, which is not modelled;
   * each row's provider label goes through `get_transport_info`, as the two
   * `apply` calls do, and the row keeps every other cell.
   */
  method Enrich(raw: seq<Listing>, formatDate: string -> string) returns (table: seq<Row>)
    ensures |table| == |raw|
    ensures Numbered(table)
    ensures forall i :: 0 <= i < |raw| ==>
              table[i].listing == raw[i].(dateOfScrape := formatDate(raw[i].dateOfScrape))
    ensures forall i :: 0 <= i < |raw| ==>
              (table[i].corporation, table[i].state) == TransportInfo(raw[i].provider)
  {
    table := [];
    for i := 0 to |raw|
      invariant |table| == i
      invariant Numbered(table)
      invariant forall k :: 0 <= k < i ==>
                  table[k].listing == raw[k].(dateOfScrape := formatDate(raw[k].dateOfScrape))
      invariant forall k :: 0 <= k < i ==>
                  (table[k].corporation, table[k].state) == TransportInfo(raw[k].provider)
    {
      var listing := raw[i].(dateOfScrape := formatDate(raw[i].dateOfScrape));
      var corp, state := GetTransportInfo(listing.provider);
      table := table + [Row(i + 1, listing, corp, state)];
    }
  }

  /** Distinct `S.No` labels make the rows of an enriched table pairwise distinct. */
  lemma NumberedDistinct(table: seq<Row>)
    requires Numbered(table)
    ensures forall i, j :: 0 <= i < j < |table| ==> table[i] != table[j]
  {
  }

  /**
   * A row that survives any selection from a table numbered from `base` keeps
   * its label: it is the table's row at that label, and labels increase down
   * the selection.
   */
  lemma {:induction false} SubseqKeepsLabels(r: seq<Row>, s: seq<Row>, base: int)
    requires Subseq(r, s)
    requires forall i :: 0 <= i < |s| ==> s[i].sNo == base + i
    ensures forall k :: 0 <= k < |r| ==>
              base <= r[k].sNo < base + |s| && s[r[k].sNo - base] == r[k]
    ensures forall k, l :: 0 <= k < l < |r| ==> r[k].sNo < r[l].sNo
    decreases |s|
  {
    if r != [] {
      assert forall i :: 0 <= i < |s[1..]| ==> s[1..][i].sNo == base + 1 + i;
      if r[0] == s[0] && Subseq(r[1..], s[1..]) {
        SubseqKeepsLabels(r[1..], s[1..], base + 1);
        forall k | 0 < k < |r|
          ensures base <= r[k].sNo < base + |s| && s[r[k].sNo - base] == r[k]
        {
          assert r[k] == r[1..][k - 1];
        }
        forall k, l | 0 <= k < l < |r| ensures r[k].sNo < r[l].sNo {
          assert r[l] == r[1..][l - 1];
          if k > 0 { assert r[k] == r[1..][k - 1]; }
        }
      } else {
        SubseqKeepsLabels(r, s[1..], base + 1);
      }
    }
  }

  /** Every row of a selection from the enriched table is the enriched row its `S.No` names. */
  lemma SelectionKeepsLabels(view: seq<Row>, table: seq<Row>)
    requires Numbered(table) && Subseq(view, table)
    ensures forall k :: 0 <= k < |view| ==>
              1 <= view[k].sNo <= |table| && table[view[k].sNo - 1] == view[k]
    ensures forall k, l :: 0 <= k < l < |view| ==> view[k].sNo < view[l].sNo
  {
    SubseqKeepsLabels(view, table, 1);
  }
}
