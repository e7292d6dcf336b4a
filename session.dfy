/**
 * The page switch at the top of the script: `st.session_state.page` is set
 * to "home" when the session has no page yet, and the two buttons overwrite
 * it, the "States and Routes" button being read last.
 */
module Session {
  import opened Wrappers

  datatype Page = HomePage | RoutesPage

  /**
   * The page a run ends with, from the page the session held (`None` on the
   * first run) and which buttons were clicked during the run.
   */
  function NextPage(current: Option<Page>, homeClicked: bool, routesClicked: bool): (p: Page)
    ensures routesClicked ==> p == RoutesPage
    ensures homeClicked && !routesClicked ==> p == HomePage
    ensures !homeClicked && !routesClicked && current.Some? ==> p == current.value
    ensures !homeClicked && !routesClicked && current.None? ==> p == HomePage
  {
    if routesClicked then RoutesPage
    else if homeClicked then HomePage
    else if current.None? then HomePage
    else current.value
  }

  /** A session starts on the home page. */
  lemma FirstRunIsHome()
    ensures NextPage(None, false, false) == HomePage
  {
  }

  /** A run with no click keeps the page the session is on. */
  lemma NoClickKeepsPage(p: Page)
    ensures NextPage(Some(p), false, false) == p
  {
  }

  /** A button overwrites the page whatever the session held before. */
  lemma ButtonsOverwrite(a: Option<Page>, b: Option<Page>)
    ensures NextPage(a, true, false) == NextPage(b, true, false) == HomePage
    ensures NextPage(a, false, true) == NextPage(b, false, true) == RoutesPage
  {
  }

  /** Clicking the same buttons again changes nothing. */
  lemma ClickIdempotent(current: Option<Page>, homeClicked: bool, routesClicked: bool)
    ensures NextPage(Some(NextPage(current, homeClicked, routesClicked)), homeClicked, routesClicked)
            == NextPage(current, homeClicked, routesClicked)
  {
  }

  /** `st.session_state`, reduced to its one key. */
  class SessionState {
    var page: Option<Page>

    /** A new browser session, without a "page" key. */
    constructor ()
      ensures page == None
    {
      page := None;
    }

    /** Lines 61-70 of one run of the script. */
    method Run(homeClicked: bool, routesClicked: bool)
      modifies this
      ensures page == Some(NextPage(old(page), homeClicked, routesClicked))
    {
      if page.None? {
        page := Some(HomePage);
      }
      if homeClicked {
        page := Some(HomePage);
      }
      if routesClicked {
        page := Some(RoutesPage);
      }
    }
  }
}
