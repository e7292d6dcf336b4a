/**
 * The table shown at the bottom of the routes page: the filtered rows with
 * the raw provider label (`state_name`) and the helper `depart_hour` column
 * dropped, and the remaining columns renamed for display.
 */
module Display {
  import opened Wrappers
  import opened Listings

  /** A displayed row; each field carries the column's display name. */
  datatype DisplayRow = DisplayRow(
    sNo: nat,                       // the S.No index
    route: string,                  // "Route"
    transportCorporation: string,   // "Transport Corporation"
    state: string,                  // "State"
    busName: string,                // "Bus Name"
    price: Option<int>,             // "Price"
    busType: string,                // "Bus Type"
    departure: string,              // "Departure"
    duration: string,               // "Duration"
    arrival: string,                // "Arrival"
    starRating: Option<real>,       // "Star Rating"
    seatsAvailable: int,            // "Seats Available"
    govtPrivate: string,            // "Govt/Private"
    dateOfJourney: string,          // "Date Of Journey"
    acType: string)                 // "A/C Type"

  function Shown(h: HourRow): DisplayRow
  {
    var l := h.row.listing;
    DisplayRow(h.row.sNo, l.routeName, h.row.corporation, h.row.state, l.busName, l.price, l.busType,
               l.departingTime, l.duration, l.reachingTime, l.starRating, l.seatsAvailable, l.category,
               l.dateOfScrape, h.acType)
  }

  /** `df_filtered.drop(columns=['state_name', 'depart_hour']).rename(columns={...})`. */
  function Present(view: seq<HourRow>): (d: seq<DisplayRow>)
    ensures |d| == |view|
    ensures forall i :: 0 <= i < |d| ==> d[i].sNo == view[i].row.sNo
  {
    seq(|view|, i requires 0 <= i < |view| => Shown(view[i]))
  }

  /** The two dropped columns. */
  function Providers(view: seq<HourRow>): seq<string>
  {
    seq(|view|, i requires 0 <= i < |view| => view[i].row.listing.provider)
  }

  function DepartHourColumn(view: seq<HourRow>): seq<Option<Hour>>
  {
    seq(|view|, i requires 0 <= i < |view| => view[i].departHour)
  }

  /** Puts the dropped columns back and undoes the renaming. */
  function Restore(d: seq<DisplayRow>, providers: seq<string>, hours: seq<Option<Hour>>): seq<HourRow>
    requires |providers| == |d| && |hours| == |d|
  {
    seq(|d|, i requires 0 <= i < |d| =>
      var x := d[i];
      HourRow(
        Row(x.sNo,
            Listing(x.route, providers[i], x.busName, x.busType, x.departure, x.duration, x.arrival,
                    x.starRating, x.price, x.seatsAvailable, x.govtPrivate, x.dateOfJourney),
            x.transportCorporation, x.state),
        x.acType, hours[i]))
  }

  /** The projection loses nothing but the two dropped columns: they alone restore the view. */
  lemma RestorePresent(view: seq<HourRow>)
    ensures Restore(Present(view), Providers(view), DepartHourColumn(view)) == view
  {
    var back := Restore(Present(view), Providers(view), DepartHourColumn(view));
    forall i | 0 <= i < |view| ensures back[i] == view[i] {
      assert Present(view)[i] == Shown(view[i]);
    }
  }

  /** And the display names cover every other column: presenting a restored table gives it back. */
  lemma PresentRestore(d: seq<DisplayRow>, providers: seq<string>, hours: seq<Option<Hour>>)
    requires |providers| == |d| && |hours| == |d|
    ensures Present(Restore(d, providers, hours)) == d
    ensures Providers(Restore(d, providers, hours)) == providers
    ensures DepartHourColumn(Restore(d, providers, hours)) == hours
  {
  }
}
