/**
 * The "States and Routes" page: the A/C classifier, the five filter stages
 * applied in the panel's order (bus type, state, price, A/C, departure hour),
 * the widget options recomputed from the narrowed table, and the projection
 * to the displayed columns.
 */
module RoutesView {
  import opened Wrappers
  import opened Text
  import opened Seqs
  import opened Listings

  /** The sentinel every selectbox offers first. */
  const All := "All"

  const AcBus := "A/C Bus"
  const NonAcBus := "Non A/C Bus"

  /** The substrings that mark an air-conditioned bus type, in the order they are tried. */
  const AcKeywords: seq<string> := ["a/c", "ac", "a c"]

  /** The options of the "Select Bus Type" selectbox. */
  const CategoryOptions: seq<string> := [All, "Government", "Private"]

  /** The options of the "Select A/C or Non A/C Bus" selectbox. */
  const AcOptions: seq<string> := [All, AcBus, NonAcBus]

  /**
   * `classify_ac_type`: a bus type is "A/C Bus" when its lower-cased text
   * contains one of the A/C keywords and not "non"; in every other case,
   * including no keyword at all, it is "Non A/C Bus".
   */
  function ClassifyAcType(busType: string): (r: string)
    ensures r == AcBus || r == NonAcBus
    ensures r == AcBus <==>
              (Contains(Lower(busType), "a/c") || Contains(Lower(busType), "ac") || Contains(Lower(busType), "a c")) &&
              !Contains(Lower(busType), "non")
  {
    var text := Lower(busType);
    assert AcKeywords[0] == "a/c" && AcKeywords[1] == "ac" && AcKeywords[2] == "a c";
    if exists k :: k in AcKeywords && Contains(text, k) then
      if Contains(text, "non") then NonAcBus else AcBus
    else NonAcBus
  }

  /** `df['type'].str.lower().str.contains(bus_type.lower())` for one row. */
  predicate InCategory(choice: string, r: Row)
  {
    Contains(Lower(r.listing.category), Lower(choice))
  }

  /** `(col >= lo) & (col <= hi)` for one cell; a missing value compares false. */
  predicate InRange(v: Option<int>, range: (int, int))
  {
    v.Some? && range.0 <= v.value <= range.1
  }

  function CategoryMask(choice: string): Row -> bool
  {
    (r: Row) => InCategory(choice, r)
  }

  function StateMask(choice: string): Row -> bool
  {
    (r: Row) => r.state == choice
  }

  function PriceMask(range: (int, int)): Row -> bool
  {
    (r: Row) => InRange(r.listing.price, range)
  }

  function AcMask(choice: string): AcRow -> bool
  {
    (a: AcRow) => a.acType == choice
  }

  function HourMask(range: (int, int)): HourRow -> bool
  {
    (h: HourRow) => InRange(h.departHour, range)
  }

  function States(s: seq<Row>): seq<string>
  {
    MapSeq(s, (r: Row) => r.state)
  }

  function Prices(s: seq<Row>): seq<Option<int>>
  {
    MapSeq(s, (r: Row) => r.listing.price)
  }

  /** The departure hours of enriched rows, as `parse` reads them. */
  function DepartHours(s: seq<Row>, parse: string -> Option<Hour>): seq<Option<int>>
  {
    MapSeq(s, (r: Row) => parse(r.listing.departingTime))
  }

  function Hours(s: seq<HourRow>): seq<Option<int>>
  {
    MapSeq(s, (h: HourRow) => h.departHour)
  }

  /** `df_filtered['AC Type'] = df_filtered['bustype'].apply(classify_ac_type)`. */
  function AddAcType(s: seq<Row>): seq<AcRow>
  {
    MapSeq(s, AcTagger())
  }

  function AcTagger(): Row -> AcRow
  {
    (r: Row) => AcRow(r, ClassifyAcType(r.listing.busType))
  }

  /**
   * `df_filtered['depart_hour'] = pd.to_datetime(..., format='%H:%M', errors='coerce').dt.hour`;
   * `parse` stands for that pandas call, with `None` for a time it cannot read.
   */
  function AddDepartHour(s: seq<AcRow>, parse: string -> Option<Hour>): seq<HourRow>
  {
    MapSeq(s, HourTagger(parse))
  }

  function HourTagger(parse: string -> Option<Hour>): AcRow -> HourRow
  {
    (a: AcRow) => HourRow(a.row, a.acType, parse(a.row.listing.departingTime))
  }

  /** Both added columns at once, for an enriched row. */
  function Annotate(parse: string -> Option<Hour>): Row -> HourRow
  {
    (r: Row) => HourRow(r, ClassifyAcType(r.listing.busType), parse(r.listing.departingTime))
  }

  /** The values the user has set on the five filter widgets. */
  datatype Widgets = Widgets(
    busType: string,
    state: string,
    priceRange: (int, int),
    acType: string,
    hourRange: (int, int))

  /**
   * What the panel offers, computed from the table as narrowed so far: the
   * state selectbox's options, and the two sliders' bounds (`None` when the
   * stage's column is entirely missing and its slider is not shown).
   */
  datatype Panel = Panel(
    stateOptions: seq<string>,
    priceBounds: Option<(int, int)>,
    hourBounds: Option<(int, int)>)

  // What each stage, when active, asks of an enriched row.

  predicate PassCategory(w: Widgets, r: Row)
  {
    w.busType == All || InCategory(w.busType, r)
  }

  predicate PassState(w: Widgets, r: Row)
  {
    w.state == All || r.state == w.state
  }

  predicate PassPrice(w: Widgets, priceBounds: Option<(int, int)>, r: Row)
  {
    priceBounds.None? || InRange(r.listing.price, w.priceRange)
  }

  predicate PassAc(w: Widgets, r: Row)
  {
    w.acType == All || ClassifyAcType(r.listing.busType) == w.acType
  }

  predicate PassHour(w: Widgets, hourBounds: Option<(int, int)>, parse: string -> Option<Hour>, r: Row)
  {
    hourBounds.None? || InRange(parse(r.listing.departingTime), w.hourRange)
  }

  // The rows that survive the first one, two, three or four stages, and all five.

  function AfterCategory(w: Widgets): Row -> bool
  {
    (r: Row) => PassCategory(w, r)
  }

  function AfterState(w: Widgets): Row -> bool
  {
    (r: Row) => PassCategory(w, r) && PassState(w, r)
  }

  function AfterPrice(w: Widgets, priceBounds: Option<(int, int)>): Row -> bool
  {
    (r: Row) => PassCategory(w, r) && PassState(w, r) && PassPrice(w, priceBounds, r)
  }

  function AfterAc(w: Widgets, priceBounds: Option<(int, int)>): Row -> bool
  {
    (r: Row) => PassCategory(w, r) && PassState(w, r) && PassPrice(w, priceBounds, r) && PassAc(w, r)
  }

  /** An enriched row passes every filter stage that is active. */
  predicate Passes(w: Widgets, panel: Panel, parse: string -> Option<Hour>, r: Row)
  {
    PassCategory(w, r) && PassState(w, r) && PassPrice(w, panel.priceBounds, r) && PassAc(w, r) &&
    PassHour(w, panel.hourBounds, parse, r)
  }

  function Selected(w: Widgets, panel: Panel, parse: string -> Option<Hour>): Row -> bool
  {
    (r: Row) => Passes(w, panel, parse, r)
  }

  lemma CategoryStep(table: seq<Row>, w: Widgets)
    ensures (if w.busType != All then Where(table, CategoryMask(w.busType)) else table) == Where(table, AfterCategory(w))
  {
    if w.busType != All {
      WhereExt(table, CategoryMask(w.busType), AfterCategory(w));
    } else {
      WhereAll(table, AfterCategory(w));
    }
  }

  lemma StateStep(table: seq<Row>, w: Widgets)
    ensures (if w.state != All then Where(Where(table, AfterCategory(w)), StateMask(w.state)) else Where(table, AfterCategory(w)))
            == Where(table, AfterState(w))
  {
    if w.state != All {
      WhereWhere(table, AfterCategory(w), StateMask(w.state));
      WhereExt(table, And(AfterCategory(w), StateMask(w.state)), AfterState(w));
    } else {
      WhereExt(table, AfterCategory(w), AfterState(w));
    }
  }

  lemma PriceStep(table: seq<Row>, w: Widgets, priceBounds: Option<(int, int)>)
    ensures (if priceBounds.Some? then Where(Where(table, AfterState(w)), PriceMask(w.priceRange)) else Where(table, AfterState(w)))
            == Where(table, AfterPrice(w, priceBounds))
  {
    if priceBounds.Some? {
      WhereWhere(table, AfterState(w), PriceMask(w.priceRange));
      WhereExt(table, And(AfterState(w), PriceMask(w.priceRange)), AfterPrice(w, priceBounds));
    } else {
      WhereExt(table, AfterState(w), AfterPrice(w, priceBounds));
    }
  }

  lemma AcStep(table: seq<Row>, w: Widgets, priceBounds: Option<(int, int)>)
    ensures (var tagged := AddAcType(Where(table, AfterPrice(w, priceBounds)));
             if w.acType != All then Where(tagged, AcMask(w.acType)) else tagged)
            == AddAcType(Where(table, AfterAc(w, priceBounds)))
  {
    var rows3 := Where(table, AfterPrice(w, priceBounds));
    if w.acType != All {
      var lifted := Compose(AcTagger(), AcMask(w.acType));
      WhereMap(rows3, AcTagger(), AcMask(w.acType));
      WhereWhere(table, AfterPrice(w, priceBounds), lifted);
      WhereExt(table, And(AfterPrice(w, priceBounds), lifted), AfterAc(w, priceBounds));
    } else {
      WhereExt(table, AfterPrice(w, priceBounds), AfterAc(w, priceBounds));
    }
  }

  lemma HourColumn(rows: seq<Row>, parse: string -> Option<Hour>)
    ensures AddDepartHour(AddAcType(rows), parse) == MapSeq(rows, Annotate(parse))
    ensures Hours(MapSeq(rows, Annotate(parse))) == DepartHours(rows, parse)
  {
    MapMap(rows, AcTagger(), HourTagger(parse), Annotate(parse));
  }

  lemma HourStep(table: seq<Row>, w: Widgets, panel: Panel, parse: string -> Option<Hour>)
    ensures (var timed := MapSeq(Where(table, AfterAc(w, panel.priceBounds)), Annotate(parse));
             if panel.hourBounds.Some? then Where(timed, HourMask(w.hourRange)) else timed)
            == MapSeq(Where(table, Selected(w, panel, parse)), Annotate(parse))
  {
    var rows4 := Where(table, AfterAc(w, panel.priceBounds));
    if panel.hourBounds.Some? {
      var lifted := Compose(Annotate(parse), HourMask(w.hourRange));
      WhereMap(rows4, Annotate(parse), HourMask(w.hourRange));
      WhereWhere(table, AfterAc(w, panel.priceBounds), lifted);
      WhereExt(table, And(AfterAc(w, panel.priceBounds), lifted), Selected(w, panel, parse));
    } else {
      WhereExt(table, AfterAc(w, panel.priceBounds), Selected(w, panel, parse));
    }
  }

  /**
   * The filter block of the routes page. `table` is the enriched table,
   * `parse` the `HH:MM` parser and `w` the widget values; the result is
   * what the panel offered and the filtered table with its `AC Type` and
   * `depart_hour` columns.
   */
  method FilterRoutes(table: seq<Row>, parse: string -> Option<Hour>, w: Widgets)
    returns (panel: Panel, view: seq<HourRow>)
    requires w.busType in CategoryOptions
    ensures panel.stateOptions == [All] + SortedDistinct(States(Where(table, AfterCategory(w))))
    ensures panel.priceBounds == Bounds(Prices(Where(table, AfterState(w))))
    ensures panel.hourBounds ==
              Bounds(DepartHours(Where(table, AfterAc(w, panel.priceBounds)), parse))
    ensures view == MapSeq(Where(table, Selected(w, panel, parse)), Annotate(parse))
  {
    var filtered := table;
    if w.busType != All {
      filtered := Where(filtered, CategoryMask(w.busType));
    }
    CategoryStep(table, w);

    var stateOptions := [All] + SortedDistinct(States(filtered));
    if w.state != All {
      filtered := Where(filtered, StateMask(w.state));
    }
    StateStep(table, w);

    var priceBounds := Bounds(Prices(filtered));
    if priceBounds.Some? {
      filtered := Where(filtered, PriceMask(w.priceRange));
    }
    PriceStep(table, w, priceBounds);

    var tagged := AddAcType(filtered);
    if w.acType != All {
      tagged := Where(tagged, AcMask(w.acType));
    }
    AcStep(table, w, priceBounds);

    var timed := AddDepartHour(tagged, parse);
    HourColumn(Where(table, AfterAc(w, priceBounds)), parse);
    var hourBounds := Bounds(Hours(timed));
    panel := Panel(stateOptions, priceBounds, hourBounds);
    if hourBounds.Some? {
      timed := Where(timed, HourMask(w.hourRange));
    }
    HourStep(table, w, panel, parse);
    view := timed;
  }

  // Properties of the chain, stated on the functions the method is proved against.

  function Rows(view: seq<HourRow>): seq<Row>
  {
    MapSeq(view, (h: HourRow) => h.row)
  }

  /** Dropping the two added columns gives back a subsequence of the enriched table, in its order. */
  lemma ViewKeepsOrder(table: seq<Row>, w: Widgets, panel: Panel, parse: string -> Option<Hour>)
    ensures Rows(MapSeq(Where(table, Selected(w, panel, parse)), Annotate(parse))) == Where(table, Selected(w, panel, parse))
    ensures Subseq(Rows(MapSeq(Where(table, Selected(w, panel, parse)), Annotate(parse))), table)
  {
    var kept := Where(table, Selected(w, panel, parse));
    MapMap(kept, Annotate(parse), (h: HourRow) => h.row, (r: Row) => r);
    assert MapSeq(kept, (r: Row) => r) == kept;
  }

  /**
   * A row of the view is an enriched row that passes every active stage,
   * with its classifier verdict and parsed hour attached; and every such
   * row is in the view.
   */
  lemma ViewMembers(table: seq<Row>, w: Widgets, panel: Panel, parse: string -> Option<Hour>)
    ensures forall h: HourRow :: h in MapSeq(Where(table, Selected(w, panel, parse)), Annotate(parse)) <==>
              h.row in table && Passes(w, panel, parse, h.row) &&
              h.acType == ClassifyAcType(h.row.listing.busType) &&
              h.departHour == parse(h.row.listing.departingTime)
  {
    var kept := Where(table, Selected(w, panel, parse));
    var view := MapSeq(kept, Annotate(parse));
    forall h: HourRow | h.row in table && Passes(w, panel, parse, h.row) &&
               h.acType == ClassifyAcType(h.row.listing.busType) &&
               h.departHour == parse(h.row.listing.departingTime)
      ensures h in view
    {
      assert h.row in kept;
      var i :| 0 <= i < |kept| && kept[i] == h.row;
      assert view[i] == h;
    }
    forall h: HourRow | h in view
      ensures h.row in table && Passes(w, panel, parse, h.row)
    {
      var i :| 0 <= i < |view| && view[i] == h;
      assert h == Annotate(parse)(kept[i]) && kept[i] in kept;
    }
  }

  /**
   * When a slider is shown, every row of the view has a value in its
   * column, inside the range the slider is set to.
   */
  lemma ViewInRanges(table: seq<Row>, w: Widgets, panel: Panel, parse: string -> Option<Hour>)
    ensures panel.priceBounds.Some? ==>
              forall h :: h in MapSeq(Where(table, Selected(w, panel, parse)), Annotate(parse)) ==>
                h.row.listing.price.Some? && w.priceRange.0 <= h.row.listing.price.value <= w.priceRange.1
    ensures panel.hourBounds.Some? ==>
              forall h :: h in MapSeq(Where(table, Selected(w, panel, parse)), Annotate(parse)) ==>
                h.departHour.Some? && w.hourRange.0 <= h.departHour.value <= w.hourRange.1
  {
    ViewMembers(table, w, panel, parse);
  }

  function HasPrice(): Row -> bool
  {
    (r: Row) => r.listing.price.Some?
  }

  /** The price column of a table is entirely missing exactly when no row has a price. */
  lemma PriceSliderHidden(rows: seq<Row>)
    ensures Bounds(Prices(rows)).None? <==> forall r :: r in rows ==> r.listing.price.None?
  {
    var prices := Prices(rows);
    if Bounds(prices).None? {
      forall r | r in rows ensures r.listing.price.None? {
        var i :| 0 <= i < |rows| && rows[i] == r;
        assert prices[i].None?;
      }
    }
  }

  /**
   * At the slider's default value, the full range of the column, the price
   * stage is not the identity: it keeps exactly the rows that have a price.
   */
  lemma PriceFullRange(rows: seq<Row>)
    requires Bounds(Prices(rows)).Some?
    ensures Where(rows, PriceMask(Bounds(Prices(rows)).value)) == Where(rows, HasPrice())
    ensures Where(rows, PriceMask(Bounds(Prices(rows)).value)) == rows <==>
              forall r :: r in rows ==> r.listing.price.Some?
  {
    var prices := Prices(rows);
    var b := Bounds(prices).value;
    forall r | r in rows ensures PriceMask(b)(r) == HasPrice()(r) {
      var i :| 0 <= i < |rows| && rows[i] == r;
      assert prices[i] == r.listing.price;
    }
    WhereExt(rows, PriceMask(b), HasPrice());
    if forall r :: r in rows ==> r.listing.price.Some? {
      WhereAll(rows, HasPrice());
    }
  }

  /** Every bound of the departure-hour slider is an hour of the day. */
  lemma HourBoundsInDay(rows: seq<Row>, parse: string -> Option<Hour>)
    requires Bounds(DepartHours(rows, parse)).Some?
    ensures 0 <= Bounds(DepartHours(rows, parse)).value.0 <= Bounds(DepartHours(rows, parse)).value.1 < 24
  {
    var hours := DepartHours(rows, parse);
    var b := Bounds(hours).value;
    var i :| 0 <= i < |hours| && hours[i] == Some(b.0);
    var j :| 0 <= j < |hours| && hours[j] == Some(b.1);
    assert hours[i] == parse(rows[i].listing.departingTime);
    assert hours[j] == parse(rows[j].listing.departingTime);
  }

  function HasHour(): HourRow -> bool
  {
    (h: HourRow) => h.departHour.Some?
  }

  /** The hour slider is hidden exactly when no departure time parses. */
  lemma HourSliderHidden(rows: seq<Row>, parse: string -> Option<Hour>)
    ensures Bounds(DepartHours(rows, parse)).None? <==> forall r :: r in rows ==> parse(r.listing.departingTime).None?
  {
    var hours := DepartHours(rows, parse);
    if Bounds(hours).None? {
      forall r | r in rows ensures parse(r.listing.departingTime).None? {
        var i :| 0 <= i < |rows| && rows[i] == r;
        assert hours[i].None?;
      }
    }
  }

  /** At its default value the hour stage keeps exactly the rows whose departure time parsed. */
  lemma HourFullRange(rows: seq<Row>, parse: string -> Option<Hour>)
    requires Bounds(DepartHours(rows, parse)).Some?
    ensures Where(MapSeq(rows, Annotate(parse)), HourMask(Bounds(DepartHours(rows, parse)).value)) ==
            Where(MapSeq(rows, Annotate(parse)), HasHour())
  {
    var hours := DepartHours(rows, parse);
    var b := Bounds(hours).value;
    var timed := MapSeq(rows, Annotate(parse));
    forall h | h in timed ensures HourMask(b)(h) == HasHour()(h) {
      var i :| 0 <= i < |timed| && timed[i] == h;
      assert hours[i] == h.departHour;
    }
    WhereExt(timed, HourMask(b), HasHour());
  }

  /**
   * The state selectbox offers "All" and then each distinct `STATE` of the
   * category-filtered rows once, in ascending order; an unmatched provider's
   * empty state is among them.
   */
  lemma StateOptions(rows: seq<Row>)
    ensures ([All] + SortedDistinct(States(rows)))[0] == All
    ensures StrictlySorted(([All] + SortedDistinct(States(rows)))[1..])
    ensures forall s :: s in ([All] + SortedDistinct(States(rows)))[1..] <==> exists r :: r in rows && r.state == s
  {
    var opts := [All] + SortedDistinct(States(rows));
    assert opts[1..] == SortedDistinct(States(rows));
    forall s | s in opts[1..] ensures exists r :: r in rows && r.state == s {
      var i :| 0 <= i < |States(rows)| && States(rows)[i] == s;
      assert rows[i] in rows && rows[i].state == s;
    }
    forall r | r in rows ensures r.state in opts[1..] {
      var i :| 0 <= i < |rows| && rows[i] == r;
      assert States(rows)[i] == r.state;
    }
  }
}
