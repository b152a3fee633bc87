/** The page title in the header (`src/components/common/Header.tsx`),
    chosen by the first segment of the location's path. */
module Header {
  import opened Wrappers
  import opened Text

  /** `pathname.split('/')[1]`: the piece after the first `/`, or nothing
      when the path has no `/`. */
  function FirstSegment(pathname: string): (seg: Option<string>)
    ensures seg.Some? ==> '/' !in seg.value
    ensures seg.None? <==> '/' !in pathname
  {
    var parts := SplitOn(pathname, '/');
    if '/' !in pathname then
      SplitWithoutSeparator(pathname, '/');
      None
    else
      SplitAtLeastTwo(pathname, '/');
      Some(parts[1])
  }

  /** The title for a segment, `Dashboard` for anything unknown (the switch's
      `default`, which also catches a missing segment). */
  function SegmentTitle(seg: Option<string>): (title: string)
    ensures title in {"Dashboard", "Task Tracker", "Calendar", "Reports", "Projects"}
  {
    match seg
    case Some(s) =>
      if s == "dashboard" then "Dashboard"
      else if s == "tasks" then "Task Tracker"
      else if s == "calendar" then "Calendar"
      else if s == "reports" then "Reports"
      else if s == "projects" then "Projects"
      else "Dashboard"
    case None => "Dashboard"
  }

  /** `getPageTitle`. */
  function PageTitle(pathname: string): (title: string)
    ensures title in {"Dashboard", "Task Tracker", "Calendar", "Reports", "Projects"}
  {
    SegmentTitle(FirstSegment(pathname))
  }

  /** A top-level path's segment is the text after the `/`. */
  lemma TopLevelSegment(seg: string)
    requires '/' !in seg
    ensures FirstSegment("/" + seg) == Some(seg)
  {
    SplitAtSeparator([], '/', seg);
    assert [] + ['/'] + seg == "/" + seg;
    SplitWithoutSeparator(seg, '/');
  }

  /** A deeper path gets the same title as its first segment alone. */
  lemma TitleOfDeeperPath(seg: string, rest: string)
    requires '/' !in seg
    ensures FirstSegment("/" + seg + "/" + rest) == Some(seg)
    ensures PageTitle("/" + seg + "/" + rest) == PageTitle("/" + seg)
  {
    TopLevelSegment(seg);
    SplitAtSeparator("/" + seg, '/', rest);
    assert "/" + seg + ['/'] + rest == "/" + seg + "/" + rest;
  }

  /** The five known pages, and `Dashboard` for every other segment, the
      empty one included. */
  lemma TopLevelTitles(seg: string)
    requires '/' !in seg
    ensures seg == "dashboard" ==> PageTitle("/" + seg) == "Dashboard"
    ensures seg == "tasks" ==> PageTitle("/" + seg) == "Task Tracker"
    ensures seg == "calendar" ==> PageTitle("/" + seg) == "Calendar"
    ensures seg == "reports" ==> PageTitle("/" + seg) == "Reports"
    ensures seg == "projects" ==> PageTitle("/" + seg) == "Projects"
    ensures seg !in {"dashboard", "tasks", "calendar", "reports", "projects"} ==> PageTitle("/" + seg) == "Dashboard"
  {
    TopLevelSegment(seg);
  }

  /** The root path `/` and a path without any `/` fall back to `Dashboard`. */
  lemma FallbackTitle(pathname: string)
    ensures PageTitle("/") == "Dashboard"
    ensures '/' !in pathname ==> PageTitle(pathname) == "Dashboard"
  {
    TopLevelSegment("");
    assert "/" + "" == "/";
  }
}
