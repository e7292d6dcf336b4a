/**
 * The rows the dashboard works on. A table is a `seq` of rows; a pandas NaN
 * in a numeric cell is `None`.
 */
module Listings {
  import opened Wrappers

  /** One row of the `buses` table as fetched, without the dropped `id` column. */
  datatype Listing = Listing(
    routeName: string,          // route_name
    provider: string,           // state_name: the operator's free-text label
    busName: string,            // busname
    busType: string,            // bustype, e.g. "A/C Sleeper (2+1)"
    departingTime: string,      // departing_time, "HH:MM"
    duration: string,           // duration
    reachingTime: string,       // reaching_time
    starRating: Option<real>,   // star_rating
    price: Option<int>,         // price
    seatsAvailable: int,        // seats_available
    category: string,           // type: "Government" or "Private"
    dateOfScrape: string)       // date_of_scrape

  /**
   * A row of the enriched table: its `S.No` index label and the two inserted
   * columns `TRANSPORT CORPORATION` and `STATE`.
   */
  datatype Row = Row(sNo: nat, listing: Listing, corporation: string, state: string)

  /** An hour of the day, as `.dt.hour` yields it. */
  type Hour = h: int | 0 <= h < 24

  /** A row of the routes view once the `AC Type` column has been added. */
  datatype AcRow = AcRow(row: Row, acType: string)

  /** A row of the routes view once `depart_hour` has been added as well; `None` is an unparsed time. */
  datatype HourRow = HourRow(row: Row, acType: string, departHour: Option<Hour>)
}
