/**
 * One run of the dashboard script: the page switch, the enrichment of the
 * fetched table, and then either the home page's figures or the routes
 * page's filter panel and table.
 */
module Dashboard {
  import opened Wrappers
  import opened Text
  import opened Seqs
  import opened Listings
  import opened Transport
  import opened Enrichment
  import opened Home
  import opened RoutesView
  import opened Display
  import opened Session

  /** What a run puts on the screen, apart from styling and charts. */
  datatype Screen =
    | HomeScreen(metrics: Metrics, top: seq<RouteCount>)
    | RoutesScreen(panel: Panel, shown: seq<DisplayRow>)

  /** The displayed routes table for the given widget values and panel. */
  function RoutesTable(table: seq<Row>, w: Widgets, panel: Panel, parse: string -> Option<Hour>): seq<DisplayRow>
  {
    Present(MapSeq(Where(table, Selected(w, panel, parse)), Annotate(parse)))
  }

  /**
   * `raw` is what `fetch_data()` returned; `formatDate` and `parse` stand
   * for the pandas date and time conversions; `w` holds the widget values
   * the user has set, which Streamlit hands to the script.
   */
  method Rerun(session: SessionState, homeClicked: bool, routesClicked: bool,
               raw: seq<Listing>, formatDate: string -> string, parse: string -> Option<Hour>, w: Widgets)
    returns (table: seq<Row>, screen: Screen)
    requires w.busType in CategoryOptions
    modifies session
    ensures session.page == Some(NextPage(old(session.page), homeClicked, routesClicked))
    ensures |table| == |raw| && Numbered(table)
    ensures forall i :: 0 <= i < |raw| ==> table[i].listing == raw[i].(dateOfScrape := formatDate(raw[i].dateOfScrape))
    ensures forall i :: 0 <= i < |raw| ==> (table[i].corporation, table[i].state) == TransportInfo(raw[i].provider)
    ensures session.page == Some(HomePage) <==> screen.HomeScreen?
    ensures screen.HomeScreen? ==> screen == HomeScreen(Summarize(table), TopRoutes(table))
    ensures screen.RoutesScreen? ==>
              screen.panel.stateOptions == [All] + SortedDistinct(States(Where(table, AfterCategory(w)))) &&
              screen.panel.priceBounds == Bounds(Prices(Where(table, AfterState(w)))) &&
              screen.panel.hourBounds == Bounds(DepartHours(Where(table, AfterAc(w, screen.panel.priceBounds)), parse)) &&
              screen.shown == RoutesTable(table, w, screen.panel, parse)
  {
    session.Run(homeClicked, routesClicked);
    table := Enrich(raw, formatDate);
    if session.page == Some(HomePage) {
      screen := HomeScreen(Summarize(table), TopRoutes(table));
    } else {
      var panel, view := FilterRoutes(table, parse, w);
      screen := RoutesScreen(panel, Present(view));
    }
  }

  /**
   * The routes table lists enriched rows in `S.No` order, each displayed
   * row showing the enriched row its `S.No` names, and never more rows than
   * the table has.
   */
  lemma ShownLabels(table: seq<Row>, w: Widgets, panel: Panel, parse: string -> Option<Hour>)
    requires Numbered(table)
    ensures |RoutesTable(table, w, panel, parse)| <= |table|
    ensures forall k :: 0 <= k < |RoutesTable(table, w, panel, parse)| ==>
              1 <= RoutesTable(table, w, panel, parse)[k].sNo <= |table| &&
              RoutesTable(table, w, panel, parse)[k] ==
                Shown(Annotate(parse)(table[RoutesTable(table, w, panel, parse)[k].sNo - 1]))
    ensures forall k, l :: 0 <= k < l < |RoutesTable(table, w, panel, parse)| ==>
              RoutesTable(table, w, panel, parse)[k].sNo <
              RoutesTable(table, w, panel, parse)[l].sNo
  {
    var kept := Where(table, Selected(w, panel, parse));
    var view := MapSeq(kept, Annotate(parse));
    ViewKeepsOrder(table, w, panel, parse);
    SelectionKeepsLabels(kept, table);
    assert forall k :: 0 <= k < |view| ==> view[k].row == kept[k];
  }
}
