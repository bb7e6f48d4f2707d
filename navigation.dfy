/**
  Page selection of the dashboard. The session state holds one value,
  `current_page`, which may be absent on the first run; every rerun first
  sets it to the introduction page when it is absent and then lets a clicked
  navigation button overwrite it.
*/
module Navigation {
  import opened Wrappers

  datatype Page = Introduction | Visualizations | Insights

  /** The name stored in the session state for a page. */
  function Label(p: Page): string {
    match p
    case Introduction => "Introduction"
    case Visualizations => "Visualizations"
    case Insights => "Insights & Ideas"
  }

  /** The if/elif dispatch over the stored name: the page it renders, if any. */
  function PageOf(name: string): (p: Option<Page>)
    ensures p.Some? <==> exists q :: Label(q) == name
    ensures p.Some? ==> Label(p.value) == name
  {
    if name == Label(Introduction) then Some(Introduction)
    else if name == Label(Visualizations) then Some(Visualizations)
    else if name == Label(Insights) then Some(Insights)
    else None
  }

  /** The three labels are distinct, and each one renders its own page. */
  lemma LabelRoundTrip(p: Page)
    ensures PageOf(Label(p)) == Some(p)
  {
  }

  /**
    The stored value after one rerun: absent becomes "Introduction", then the
    first clicked button in the order Introduction, Visualizations, Insights
    decides, and with no click the value stays.
  */
  function AfterRerun(stored: Option<string>, intro: bool, viz: bool, insights: bool): (name: string)
    ensures PageOf(name).Some? || (stored.Some? && name == stored.value && !intro && !viz && !insights)
  {
    LabelRoundTrip(Introduction);
    LabelRoundTrip(Visualizations);
    LabelRoundTrip(Insights);
    var page := stored.GetOr(Label(Introduction));
    if intro then Label(Introduction)
    else if viz then Label(Visualizations)
    else if insights then Label(Insights)
    else page
  }

  /** A rerun keeps the stored value a page name. */
  lemma RerunStoresAPage(stored: Option<string>, intro: bool, viz: bool, insights: bool)
    requires stored.Some? ==> PageOf(stored.value).Some?
    ensures PageOf(AfterRerun(stored, intro, viz, insights)).Some?
  {
  }

  /** The first run without a click shows the introduction. */
  lemma FirstRunShowsIntroduction()
    ensures AfterRerun(None, false, false, false) == Label(Introduction)
  {
  }

  /** Without a click, a stored page is kept. */
  lemma NoClickKeepsPage(name: string)
    ensures AfterRerun(Some(name), false, false, false) == name
  {
  }

  /**
    A click decides the page on its own, whatever was stored, and the
    Introduction button wins over Visualizations, which wins over Insights.
  */
  lemma ClickPrecedence(stored: Option<string>, viz: bool, insights: bool)
    ensures AfterRerun(stored, true, viz, insights) == Label(Introduction)
    ensures AfterRerun(stored, false, true, insights) == Label(Visualizations)
    ensures AfterRerun(stored, false, false, true) == Label(Insights)
  {
  }

  /** Repeating the same clicks on a rerun changes nothing further. */
  lemma RerunIdempotent(stored: Option<string>, intro: bool, viz: bool, insights: bool)
    ensures AfterRerun(Some(AfterRerun(stored, intro, viz, insights)), intro, viz, insights)
         == AfterRerun(stored, intro, viz, insights)
  {
  }

  /** `st.session_state`, reduced to the `current_page` entry. */
  class Session {
    var currentPage: Option<string>

    ghost predicate Valid()
      reads this
    {
      currentPage.Some? ==> PageOf(currentPage.value).Some?
    }

    /** A fresh session, in which `current_page` is not yet set. */
    constructor ()
      ensures Valid() && currentPage == None
    {
      currentPage := None;
    }

    /** The page-selection part of one rerun, given the buttons' click states. */
    method Rerun(intro: bool, viz: bool, insights: bool)
      requires Valid()
      modifies this
      ensures Valid()
      ensures currentPage == Some(AfterRerun(old(currentPage), intro, viz, insights))
    {
      if currentPage.None? {
        currentPage := Some(Label(Introduction));
      }
      if intro {
        currentPage := Some(Label(Introduction));
      } else if viz {
        currentPage := Some(Label(Visualizations));
      } else if insights {
        currentPage := Some(Label(Insights));
      }
    }

    /** The page the rerun renders, read after the selection has run. */
    method CurrentView() returns (p: Page)
      requires Valid() && currentPage.Some?
      ensures Label(p) == currentPage.value
    {
      var v := PageOf(currentPage.value);
      p := v.value;
    }
  }
}
