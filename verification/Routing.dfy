/** From a path to a page: the redirects of the web tier, the dispatch of the application, the links between pages.
    Paths name no file of the build, and a browser asking for the target of a redirect reaches that target. */
module Routing {
  import opened Options
  import opened Segments
  import opened Addresses

  // ----- redirects between hosts ----------------------------------------------------------------------------------

  function Crossing(segment: string): Option<Surface> {
    if segment == "app" then Some(App)
    else if segment == "demo" then Some(Demo)
    else if segment == "docs" then Some(Docs)
    else None
  }

  /** The path below `/` and the locale that a crossing keeps. */
  function MarketingRedirect(declared: HostMap, pathname: string): Option<string> {
    var segments := Of(pathname);
    if declared == [] || |segments| < 2 || !IsLocale(segments[0]) then None
    else match Crossing(segments[1])
      case None => None
      case Some(surface) =>
        match HostFor(declared, surface)
        case None => None
        case Some(target) =>
          var rest := Join(if surface.App? then segments[1..] else segments[2..]);
          Some(SCHEME + target + ("/" + segments[0] + (if rest == "" then "" else "/" + rest)))
  }

  const LEGACY_MARKETING: seq<string> :=
    ["product", "community", "enterprise", "cloud", "connect", "regulatory", "services", "pricing", "roadmap",
     "security", "trust", "partners", "privacy", "terms", "cookies", "imprint"]

  /** Names every JavaScript object inherits: the table of crossings answers to them too, with something that names no
      surface. */
  const INHERITED: seq<string> :=
    ["constructor", "toString", "toLocaleString", "valueOf", "hasOwnProperty", "isPrototypeOf", "propertyIsEnumerable",
     "__proto__", "__defineGetter__", "__defineSetter__", "__lookupGetter__", "__lookupSetter__"]

  const DEFAULT_LOCALE := "en"

  function LegacyRedirect(declared: HostMap, pathname: string): Option<string> {
    var segments := Of(pathname);
    if |segments| != 1 || IsLocale(segments[0]) then None
    else match Crossing(segments[0])
      case Some(surface) =>
        (match HostFor(declared, surface)
         case None => Some("/" + DEFAULT_LOCALE + "/" + segments[0])
         case Some(target) =>
           Some(SCHEME + target + ("/" + DEFAULT_LOCALE + (if surface.App? then "/" + segments[0] else ""))))
      case None =>
        if segments[0] in LEGACY_MARKETING || segments[0] in INHERITED
        then Some("/" + DEFAULT_LOCALE + "/" + segments[0]) else None
  }

  function Redirect(declared: HostMap, s: Surface, pathname: string): Option<string> {
    if !s.Marketing? && !s.All? then None
    else if MarketingRedirect(declared, pathname).Some? then MarketingRedirect(declared, pathname)
    else LegacyRedirect(declared, pathname)
  }

  // ----- the dispatch of the application --------------------------------------------------------------------------

  datatype Page =
    | Workbench(locale: string)
    | DemoPage(locale: string)
    | StatusPage(locale: string)
    | CommunityPage(locale: string)
    | DocsPage(locale: string, slug: string)
    | SitePage(locale: string, route: string)
    | NotServed

  function FirstOr(segments: seq<string>, otherwise: string): string {
    if segments == [] then otherwise else segments[0]
  }

  function Render(s: Surface, segments: seq<string>, browser: string): Page {
    var located := segments != [] && IsLocale(segments[0]);
    var locale := if located then segments[0] else browser;
    var within := if located then segments[1..] else segments;
    var route := FirstOr(within, "home");
    match s
    case App => Workbench(locale)
    case Demo => DemoPage(locale)
    case Status => StatusPage(locale)
    case Community => CommunityPage(locale)
    case Docs => DocsPage(locale, FirstOr(if segments == [] then [] else segments[1..], ""))
    case Marketing => SitePage(locale, route)
    case Api => NotServed
    case All =>
      if route == "app" || route == "workbench" then Workbench(locale)
      else if route == "docs" && |within| >= 2 then DocsPage(locale, within[1])
      else if route == "status" then StatusPage(locale)
      else SitePage(locale, route)
  }

  /** What a reader ends up on: the surface that answered, and the page it renders. */
  datatype Place = Place(surface: Surface, page: Page)

  /** The surface an address is answered by, seen from a page of surface `here`. */
  function Landing(declared: HostMap, here: Surface, href: string): Option<Surface> {
    if HostOf(href) == "" then Some(here) else ResolveSurface(declared, HostOf(href))
  }

  /** A request for a path on a surface, with the redirect it may meet. */
  function Visit(declared: HostMap, s: Surface, pathname: string, browser: string): Option<Place> {
    match Redirect(declared, s, pathname)
    case None => Some(Place(s, Render(s, Of(pathname), browser)))
    case Some(location) =>
      match Landing(declared, s, location)
      case None => None
      case Some(next) => Some(Place(next, Render(next, Of(PathnameOf(location)), browser)))
  }

  function Follow(declared: HostMap, here: Surface, href: string, browser: string): Option<Place> {
    match Landing(declared, here, href)
    case None => None
    case Some(next) => Visit(declared, next, PathnameOf(href), browser)
  }

  // ----- a redirect is a link -------------------------------------------------------------------------------------

  predicate Crosses(declared: HostMap, s: Surface, within: seq<string>) {
    s.Marketing? && within != [] && Crossing(within[0]).Some? && HostFor(declared, Crossing(within[0]).value).Some?
  }

  lemma JoinPrepends(first: string, rest: seq<string>)
    requires IsSegment(first) && AllSegments(rest)
    ensures Join([first] + rest) == first + Tail(Join(rest))
  {
    SplitUndoesJoin(rest);
    assert ([first] + rest)[1..] == rest;
    if rest == [] {
      assert [first] + rest == [first];
    }
  }

  /** The redirect away from the marketing site goes where a link to that surface would have gone, and happens
      exactly when the second segment names a surface that has a host of its own. */
  lemma RedirectIsALink(declared: HostMap, pathname: string)
    requires ValidMap(declared)
    ensures var segments := Of(pathname);
      MarketingRedirect(declared, pathname) ==
      if segments != [] && IsLocale(segments[0]) && Crosses(declared, Marketing, segments[1..])
      then Some(BuildLocaleHref(RuntimeHosts(declared), Crossing(segments[1]).value, segments[0], Join(segments[2..])))
      else None
  {
    var segments := Of(pathname);
    if segments != [] && IsLocale(segments[0]) && Crosses(declared, Marketing, segments[1..]) {
      var s := Crossing(segments[1]).value;
      HostsAreDeclared(declared, s);
      TableIsInjective(declared);
      PiecesBelow(pathname);
      RedirectText(declared, s, segments[0], segments[2..]);
      assert segments[1..] == [segments[1]] + segments[2..];
    }
  }

  lemma PiecesBelow(pathname: string)
    requires |Of(pathname)| >= 2
    ensures AllSegments(Of(pathname)[2..])
  {
    PiecesAreSegments(pathname);
    assert forall p :: p in Of(pathname)[2..] ==> p in Of(pathname);
  }

  lemma RedirectText(declared: HostMap, s: Surface, locale: string, below: seq<string>)
    requires AllSegments(below) && HostFor(declared, s).Some? && HasHost(RuntimeHosts(declared), s)
    ensures var rest := Join(if s.App? then ["app"] + below else below);
      BuildLocaleHref(RuntimeHosts(declared), s, locale, Join(below))
      == SCHEME + HostFor(declared, s).value + ("/" + locale + (if rest == "" then "" else "/" + rest))
  {
    SplitUndoesJoin(below);
    var tail := Tail(Join(below));
    if s.App? {
      JoinPrepends("app", below);
      AppText(locale, tail);
    } else {
      assert "/" + locale + "" == "/" + locale;
    }
  }

  lemma AppText(locale: string, tail: string)
    ensures "/" + locale + "/app" + tail == "/" + locale + ("/" + ("app" + tail))
  {
    Regroup("/" + locale, "/", "app", tail);
    assert "/" + "app" == "/app";
  }

  lemma Regroup(a: string, b: string, c: string, d: string)
    ensures a + (b + c) + d == a + (b + (c + d))
  {}

  /** An old unlocalized path that names a surface is sent to that surface's link in the default locale, in either
      deployment shape. */
  lemma LegacyCrossingIsALink(declared: HostMap, pathname: string)
    requires ValidMap(declared) && |Of(pathname)| == 1 && Crossing(Of(pathname)[0]).Some?
    ensures LegacyRedirect(declared, pathname) ==
            Some(BuildLocaleHref(RuntimeHosts(declared), Crossing(Of(pathname)[0]).value, "en", ""))
  {
    TableIsInjective(declared);
    var segment := Of(pathname)[0];
    var s := Crossing(segment).value;
    if HostFor(declared, s).Some? {
      RedirectText(declared, s, DEFAULT_LOCALE, []);
      assert ["app"] + [] == ["app"];
      assert Join([]) == "" && Join(["app"]) == "app";
      assert "/" + "app" == "/app";
    } else {
      assert Name(s) == segment;
      assert "/" + DEFAULT_LOCALE + ("/" + segment) + "" == "/" + DEFAULT_LOCALE + "/" + segment;
    }
  }

  /** An unlocalized path of one segment is moved to the default locale exactly when it names a surface that may have a
      host of its own, a page that used to live there, or something every object inherits. */
  lemma LegacyPathsMoveExactly(declared: HostMap, segment: string)
    requires IsSegment(segment)
    ensures LegacyRedirect(declared, "/" + segment).Some? <==>
            !IsLocale(segment)
            && (Crossing(segment).Some? || segment in LEGACY_MARKETING || segment in INHERITED)
    ensures Crossing(segment).None? && LegacyRedirect(declared, "/" + segment).Some? ==>
              LegacyRedirect(declared, "/" + segment).value
              == BuildLocaleHref(map[], Marketing, "en", segment)
  {
    LeadingSlash(segment);
    OneSegment(segment);
    assert segment[0] in segment;
    SiteText(DEFAULT_LOCALE, segment);
  }

  lemma TableMatches(declared: HostMap)
    requires ValidMap(declared)
    ensures Names(declared, RuntimeHosts(declared)) && Names(declared, map[])
  {
    TableIsInjective(declared);
  }

  /** Every host the table names is the declared host of that surface. */
  ghost predicate Names(declared: HostMap, hosts: map<Surface, string>) {
    && ProperTable(hosts)
    && forall s :: HasHost(hosts, s) ==> HostFor(declared, s) == Some(hosts[s])
  }

  lemma HostsAreDeclared(declared: HostMap, s: Surface)
    requires HostFor(declared, s).Some?
    ensures declared != []
  {}

  /** Where a printed link lands. */
  lemma LandingOfLink(
    declared: HostMap, hosts: map<Surface, string>, here: Surface, s: Surface, locale: string, rest: string)
    requires ValidMap(declared) && Names(declared, hosts) && IsLocale(locale) && Plain(rest)
    ensures Landing(declared, here, BuildLocaleHref(hosts, s, locale, rest))
            == Some(if HasHost(hosts, s) then s else here)
  {
    AddressComesApart(hosts, s, locale, rest);
    if HasHost(hosts, s) {
      HostForResolves(declared, s);
      HostsAreDeclared(declared, s);
    }
  }

  lemma JoinKeepsPlain(parts: seq<string>)
    requires forall p :: p in parts ==> Plain(p)
    ensures Plain(Join(parts))
    decreases |parts|
  {
    if parts == [] {
    } else {
      assert Plain(parts[0]) by { assert parts[0] in parts; }
      if |parts| > 1 {
        assert forall p :: p in parts[1..] ==> p in parts;
        JoinKeepsPlain(parts[1..]);
      }
    }
  }

  lemma PlainPieces(pathname: string)
    requires Plain(pathname)
    ensures AllSegments(Of(pathname)) && forall p :: p in Of(pathname) ==> Plain(p)
  {
    PiecesAreSegments(pathname);
    forall p | p in Of(pathname) ensures Plain(p) {
      assert forall c :: c in p ==> c in pathname;
    }
  }

  /** A request for a localized path: rendered where it arrives, unless the site sends it to another host. */
  lemma VisitLocated(
    declared: HostMap, s: Surface, pathname: string, locale: string, within: seq<string>, browser: string)
    requires ValidMap(declared) && On(declared, s) && IsLocale(locale) && Plain(pathname)
    requires Of(pathname) == [locale] + within
    ensures Visit(declared, s, pathname, browser) == Some(PlaceOf(declared, s, locale, within))
  {
    RenderLocated(s, locale, within, browser);
    if Crosses(declared, s, within) {
      LocatedCrosses(declared, pathname, locale, within, browser);
    } else {
      LocatedStays(declared, s, pathname, locale, within);
    }
  }

  lemma LocatedStays(declared: HostMap, s: Surface, pathname: string, locale: string, within: seq<string>)
    requires ValidMap(declared) && On(declared, s) && IsLocale(locale)
    requires Of(pathname) == [locale] + within && !Crosses(declared, s, within)
    ensures Redirect(declared, s, pathname) == None
  {
    var segments := Of(pathname);
    assert segments[0] == locale && segments[1..] == within;
    OnAllMeansOneHost(declared, s);
    RedirectIsALink(declared, pathname);
  }

  lemma OnAllMeansOneHost(declared: HostMap, s: Surface)
    requires ValidMap(declared) && On(declared, s)
    ensures s == All <==> declared == []
  {
    if declared != [] {
      HostForResolves(declared, s);
    }
  }

  lemma VisitRedirected(
    declared: HostMap, s: Surface, pathname: string, next: Surface, segments: seq<string>, browser: string)
    requires Redirect(declared, s, pathname).Some?
    requires var location := Redirect(declared, s, pathname).value;
      Landing(declared, s, location) == Some(next) && Of(PathnameOf(location)) == segments
    ensures Visit(declared, s, pathname, browser) == Some(Place(next, Render(next, segments, browser)))
  {}

  lemma LocatedCrosses(declared: HostMap, pathname: string, locale: string, within: seq<string>, browser: string)
    requires ValidMap(declared) && IsLocale(locale) && Plain(pathname)
    requires Of(pathname) == [locale] + within && Crosses(declared, Marketing, within)
    ensures Visit(declared, Marketing, pathname, browser) == Some(PlaceOf(declared, Marketing, locale, within))
  {
    var to, below := Crossing(within[0]).value, within[1..];
    var kept := if to.App? then ["app"] else [];
    PlainBelow(pathname, locale, within);
    CrossingTarget(declared, pathname, locale, within);
    CrossingLands(declared, to, locale, below);
    VisitRedirected(declared, Marketing, pathname, to, [locale] + (kept + below), browser);
    RenderLocated(to, locale, kept + below, browser);
    ShownAfterCrossing(to, locale, kept, below);
  }

  lemma PlainBelow(pathname: string, locale: string, within: seq<string>)
    requires Plain(pathname) && Of(pathname) == [locale] + within && within != []
    ensures AllSegments(within[1..]) && forall p :: p in within[1..] ==> Plain(p)
  {
    PlainPieces(pathname);
    assert within[1..] == Of(pathname)[2..];
    assert forall p :: p in Of(pathname)[2..] ==> p in Of(pathname);
  }

  lemma CrossingTarget(declared: HostMap, pathname: string, locale: string, within: seq<string>)
    requires ValidMap(declared) && IsLocale(locale)
    requires Of(pathname) == [locale] + within && Crosses(declared, Marketing, within)
    ensures Redirect(declared, Marketing, pathname) ==
            Some(BuildLocaleHref(RuntimeHosts(declared), Crossing(within[0]).value, locale, Join(within[1..])))
  {
    var segments := Of(pathname);
    assert segments[0] == locale && segments[1..] == within;
    assert segments[1] == within[0] && segments[2..] == within[1..];
    RedirectIsALink(declared, pathname);
  }

  lemma CrossingLands(declared: HostMap, to: Surface, locale: string, below: seq<string>)
    requires ValidMap(declared) && HostFor(declared, to).Some? && IsLocale(locale)
    requires AllSegments(below) && forall p :: p in below ==> Plain(p)
    ensures var location := BuildLocaleHref(RuntimeHosts(declared), to, locale, Join(below));
      Landing(declared, Marketing, location) == Some(to)
      && Of(PathnameOf(location)) == [locale] + ((if to.App? then ["app"] else []) + below)
  {
    JoinKeepsPlain(below);
    SplitUndoesJoin(below);
    TableMatches(declared);
    TableIsInjective(declared);
    AddressComesApart(RuntimeHosts(declared), to, locale, Join(below));
    LandingOfLink(declared, RuntimeHosts(declared), Marketing, to, locale, Join(below));
  }

  lemma ShownAfterCrossing(to: Surface, locale: string, within: seq<string>, below: seq<string>)
    requires within == (if to.App? then ["app"] else []) && (to.App? || to.Demo? || to.Docs?)
    ensures Shown(to, locale, within + below) == Intended(to, locale, below)
  {
    if !to.App? {
      assert within + below == below;
    }
  }

  /** Redirects do not chain: what a redirect names is answered without another one. */
  lemma RedirectsSettle(declared: HostMap, s: Surface, pathname: string)
    requires ValidMap(declared) && On(declared, s) && Plain(pathname) && Redirect(declared, s, pathname).Some?
    ensures Settles(declared, s, Redirect(declared, s, pathname).value)
  {
    if MarketingRedirect(declared, pathname).Some? {
      CrossingSettles(declared, s, pathname);
    } else if Crossing(Of(pathname)[0]).Some? {
      LegacyCrossingSettles(declared, s, pathname);
    } else {
      LegacyPageSettles(declared, s, pathname);
    }
  }

  /** A surface other than the site redirects nothing. */
  lemma LinkToSurfaceSettles(declared: HostMap, here: Surface, to: Surface, locale: string, rest: string)
    requires ValidMap(declared) && IsLocale(locale) && Plain(rest)
    requires HostFor(declared, to).Some? && !to.Marketing? && !to.All?
    ensures Settles(declared, here, BuildLocaleHref(RuntimeHosts(declared), to, locale, rest))
  {
    TableMatches(declared);
    TableIsInjective(declared);
    LandingOfLink(declared, RuntimeHosts(declared), here, to, locale, rest);
  }

  predicate Settles(declared: HostMap, here: Surface, location: string) {
    && Landing(declared, here, location).Some?
    && Redirect(declared, Landing(declared, here, location).value, PathnameOf(location)) == None
  }

  lemma CrossingSettles(declared: HostMap, s: Surface, pathname: string)
    requires ValidMap(declared) && Plain(pathname) && MarketingRedirect(declared, pathname).Some?
    ensures Settles(declared, s, MarketingRedirect(declared, pathname).value)
  {
    var segments := Of(pathname);
    RedirectIsALink(declared, pathname);
    PlainPieces(pathname);
    assert forall p :: p in segments[2..] ==> p in segments;
    JoinKeepsPlain(segments[2..]);
    LinkToSurfaceSettles(declared, s, Crossing(segments[1]).value, segments[0], Join(segments[2..]));
  }

  lemma LegacyCrossingSettles(declared: HostMap, s: Surface, pathname: string)
    requires ValidMap(declared) && On(declared, s) && (s.Marketing? || s.All?)
    requires LegacyRedirect(declared, pathname).Some? && Crossing(Of(pathname)[0]).Some?
    ensures Settles(declared, s, LegacyRedirect(declared, pathname).value)
  {
    var to := Crossing(Of(pathname)[0]).value;
    LegacyCrossingIsALink(declared, pathname);
    if HostFor(declared, to).Some? {
      LinkToSurfaceSettles(declared, s, to, DEFAULT_LOCALE, "");
    } else {
      UnhostedSettles(declared, s, to);
    }
  }

  lemma UnhostedSettles(declared: HostMap, s: Surface, to: Surface)
    requires ValidMap(declared) && On(declared, s) && HostFor(declared, to).None? && (to.App? || to.Demo? || to.Docs?)
    ensures Settles(declared, s, BuildLocaleHref(RuntimeHosts(declared), to, DEFAULT_LOCALE, ""))
  {
    var hosts := RuntimeHosts(declared);
    TableMatches(declared);
    TableIsInjective(declared);
    AddressComesApart(hosts, to, DEFAULT_LOCALE, "");
    LandingOfLink(declared, hosts, s, to, DEFAULT_LOCALE, "");
    OneSegment("");
    var within := Within(hosts, to);
    assert within + [] == within;
    LocatedStays(declared, s, PathnameOf(BuildLocaleHref(hosts, to, DEFAULT_LOCALE, "")), DEFAULT_LOCALE, within);
  }

  lemma LegacyPageSettles(declared: HostMap, s: Surface, pathname: string)
    requires ValidMap(declared) && On(declared, s) && Plain(pathname)
    requires LegacyRedirect(declared, pathname).Some? && Crossing(Of(pathname)[0]).None?
    ensures Settles(declared, s, LegacyRedirect(declared, pathname).value)
  {
    var segment := Of(pathname)[0];
    PlainPieces(pathname);
    assert segment in Of(pathname) && segment[0] in segment;
    TableMatches(declared);
    SiteText(DEFAULT_LOCALE, segment);
    var location := BuildLocaleHref(map[], Marketing, DEFAULT_LOCALE, segment);
    AddressComesApart(map[], Marketing, DEFAULT_LOCALE, segment);
    LandingOfLink(declared, map[], s, Marketing, DEFAULT_LOCALE, segment);
    OneSegment(segment);
    assert [] + [segment] == [segment];
    LocatedStays(declared, s, PathnameOf(location), DEFAULT_LOCALE, [segment]);
  }

  lemma SiteText(locale: string, segment: string)
    requires segment != "" && segment[0] != '/'
    ensures BuildLocaleHref(map[], Marketing, locale, segment) == "/" + locale + "/" + segment
  {
    assert "/" + locale + "" == "/" + locale;
    assert "/" + locale + ("/" + segment) == "/" + locale + "/" + segment;
  }

  // ----- links reach the page they name ---------------------------------------------------------------------------

  /** The page a link to a surface is for. */
  function Intended(s: Surface, locale: string, rest: seq<string>): Page {
    match s
    case App => Workbench(locale)
    case Demo => DemoPage(locale)
    case Status => StatusPage(locale)
    case Community => CommunityPage(locale)
    case Docs => DocsPage(locale, FirstOr(rest, ""))
    case Api => NotServed
    case Marketing | All => SitePage(locale, FirstOr(rest, "home"))
  }

  /** Where one host serves everything, which links still reach their surface's own page. */
  predicate ReachesOnOneHost(s: Surface, rest: seq<string>) {
    match s
    case App | Status => true
    case Docs => rest != []
    case Demo | Community | Api => false
    case Marketing | All =>
      var route := FirstOr(rest, "home");
      route != "app" && route != "workbench" && route != "status" && !(route == "docs" && |rest| >= 2)
  }

  /** A link reaches its page: from anywhere when the surface has a host, unless a path of the marketing site
      belongs to another hosted surface; on one host as listed; never when other surfaces have hosts and this
      one has none. */
  lemma LinkReachesItsPage(declared: HostMap, here: Surface, s: Surface, locale: string, rest: string, browser: string)
    requires ValidMap(declared) && On(declared, here) && s != All && IsLocale(locale) && Plain(rest)
    ensures var reached := Follow(declared, here, BuildLocaleHref(RuntimeHosts(declared), s, locale, rest), browser);
      reached.Some?
      && (reached.value.page == Intended(s, locale, Of(rest)) <==>
          if declared == [] then ReachesOnOneHost(s, Of(rest))
          else HostFor(declared, s).Some? && !Crosses(declared, s, Of(rest)))
  {
    var hosts := RuntimeHosts(declared);
    TableMatches(declared);
    TableIsInjective(declared);
    FollowLink(declared, hosts, here, s, locale, rest, browser);
    if HostFor(declared, s).Some? {
      HostsAreDeclared(declared, s);
      HostedReach(declared, s, locale, Of(rest));
    } else if declared == [] {
      OneHostReach(s, locale, Of(rest));
    } else {
      HostForResolves(declared, here);
      MissingHostMisses(declared, here, s, locale, Within(hosts, s) + Of(rest));
    }
  }

  /** The page a localized path shows on a surface. */
  function Shown(s: Surface, locale: string, within: seq<string>): Page {
    if s.All? then
      var route := FirstOr(within, "home");
      if route == "app" || route == "workbench" then Workbench(locale)
      else if route == "docs" && |within| >= 2 then DocsPage(locale, within[1])
      else if route == "status" then StatusPage(locale)
      else SitePage(locale, route)
    else Intended(s, locale, within)
  }

  lemma HostedReach(declared: HostMap, s: Surface, locale: string, rest: seq<string>)
    requires s != All
    ensures var within := (if s.App? then ["app"] else []) + rest;
      PlaceOf(declared, s, locale, within).page == Intended(s, locale, rest) <==> !Crosses(declared, s, rest)
  {
    if !s.App? {
      assert [] + rest == rest;
    }
  }

  lemma OneHostReach(s: Surface, locale: string, rest: seq<string>)
    requires s != All && IsLocale(locale)
    ensures var within := (if s.Marketing? then [] else [Name(s)]) + rest;
      Shown(All, locale, within) == Intended(s, locale, rest) <==> ReachesOnOneHost(s, rest)
  {
    if s.Marketing? {
      assert [] + rest == rest;
    } else {
      var within := [Name(s)] + rest;
      assert within[0] == Name(s) && within[1..] == rest;
    }
  }

  lemma MissingHostMisses(declared: HostMap, here: Surface, s: Surface, locale: string, within: seq<string>)
    requires declared != [] && On(declared, here) && here != All && s != All && HostFor(declared, s).None?
    requires !s.Marketing? ==> within != [] && within[0] == Name(s)
    ensures !Crosses(declared, here, within)
    ensures forall rest: seq<string> :: Shown(here, locale, within) != Intended(s, locale, rest)
  {}

  /** What following a printed link shows: the place it lands, or the crossing the site makes of it. */
  function PlaceOf(declared: HostMap, s: Surface, locale: string, within: seq<string>): Place {
    if Crosses(declared, s, within) then
      var to := Crossing(within[0]).value;
      Place(to, Intended(to, locale, within[1..]))
    else Place(s, Shown(s, locale, within))
  }

  lemma FollowLink(
    declared: HostMap, hosts: map<Surface, string>, here: Surface, s: Surface, locale: string, rest: string,
    browser: string)
    requires ValidMap(declared) && Names(declared, hosts) && On(declared, here) && IsLocale(locale) && Plain(rest)
    ensures Follow(declared, here, BuildLocaleHref(hosts, s, locale, rest), browser) ==
            Some(PlaceOf(declared, if HasHost(hosts, s) then s else here, locale, Within(hosts, s) + Of(rest)))
  {
    var href := BuildLocaleHref(hosts, s, locale, rest);
    AddressComesApart(hosts, s, locale, rest);
    LandingOfLink(declared, hosts, here, s, locale, rest);
    var next := if HasHost(hosts, s) then s else here;
    var within := Within(hosts, s) + Of(rest);
    if HasHost(hosts, s) {
      HostsAreDeclared(declared, s);
    }
    VisitLocated(declared, next, PathnameOf(href), locale, within, browser);
  }

  lemma RenderLocated(s: Surface, locale: string, within: seq<string>, browser: string)
    requires IsLocale(locale)
    ensures Render(s, [locale] + within, browser) == Shown(s, locale, within)
  {
    var segments := [locale] + within;
    assert segments[0] == locale && segments[1..] == within;
  }

  /** A path without a locale shows what the same path shows with the browser's language in front of it. Only the
      documentation host drops the first segment unseen, so there the two agree exactly when that changes nothing. */
  lemma UnlocalizedPathShows(s: Surface, segments: seq<string>, browser: string)
    requires IsLocale(browser) && (segments == [] || !IsLocale(segments[0]))
    ensures Render(s, segments, browser) == Render(s, [browser] + segments, browser)
            <==> !s.Docs? || FirstOr(segments, "") == FirstOr(if segments == [] then [] else segments[1..], "")
  {
    RenderLocated(s, browser, segments, browser);
  }

  /** On one host `demo` and `community` are pages of the site. */
  lemma OneHostShowsSitePages(s: Surface, locale: string, browser: string)
    requires IsLocale(locale) && (s.Demo? || s.Community?)
    ensures Follow([], All, BuildLocaleHref(map[], s, locale, ""), browser) ==
            Some(Place(All, SitePage(locale, if s.Demo? then "demo" else "community")))
  {
    var name := Name(s);
    FollowOnOneHost(s, locale, name, browser);
    assert name[0] == 'd' || name[0] == 'c';
    OneHostPlace(locale, name);
  }

  lemma FollowOnOneHost(s: Surface, locale: string, name: string, browser: string)
    requires IsLocale(locale) && !s.Marketing? && !s.All? && name == Name(s)
    ensures Follow([], All, BuildLocaleHref(map[], s, locale, ""), browser) == Some(PlaceOf([], All, locale, [name]))
  {
    TableMatches([]);
    FollowLink([], map[], All, s, locale, "", browser);
    OneSegment("");
    assert [name] + [] == [name];
  }

  lemma OneHostPlace(locale: string, name: string)
    requires name != "app" && name != "workbench" && name != "status"
    ensures PlaceOf([], All, locale, [name]) == Place(All, SitePage(locale, name))
  {}

  // ----- switching the language -----------------------------------------------------------------------------------

  predicate HasLocaleLinks(page: Page) { !page.Workbench? && !page.NotServed? }

  function InLocale(page: Page, locale: string): Page
    requires HasLocaleLinks(page)
  {
    page.(locale := locale)
  }

  /** The language links a page prints. */
  function LocaleLink(hosts: map<Surface, string>, page: Page, locale: string): string
    requires HasLocaleLinks(page)
  {
    match page
    case DemoPage(_) => BuildLocaleHref(hosts, Demo, locale, "")
    case StatusPage(_) => BuildLocaleHref(hosts, Status, locale, "")
    case CommunityPage(_) => BuildLocaleHref(hosts, Community, locale, "")
    case DocsPage(_, slug) => BuildLocaleHref(hosts, Docs, locale, slug)
    case SitePage(_, route) => "/" + locale + (if route == "home" then "" else "/" + route)
  }

  predicate IsPlainSegment(s: string) { IsSegment(s) && Plain(s) }

  /** The pages with language links that a surface can render. */
  predicate RenderedOn(s: Surface, page: Page) {
    match page
    case Workbench(_) => false
    case NotServed => false
    case DemoPage(_) => s.Demo?
    case StatusPage(_) => s.Status? || s.All?
    case CommunityPage(_) => s.Community?
    case DocsPage(_, slug) => (s.Docs? && slug == "") || ((s.Docs? || s.All?) && IsPlainSegment(slug))
    case SitePage(_, route) =>
      IsPlainSegment(route)
      && (s.Marketing? || (s.All? && route != "app" && route != "workbench" && route != "status"))
  }

  lemma RenderStaysOn(s: Surface, pathname: string, browser: string)
    requires Plain(pathname) && HasLocaleLinks(Render(s, Of(pathname), browser))
    ensures RenderedOn(s, Render(s, Of(pathname), browser))
  {
    PlainPieces(pathname);
    var segments := Of(pathname);
    assert forall i: nat :: i < |segments| ==> segments[i] in segments;
  }

  /** The site's own language links stay on the site, except for a route that another host answers for. */
  predicate SiteRouteCrosses(declared: HostMap, place: Place) {
    place.page.SitePage? && Crosses(declared, place.surface, [place.page.route])
  }

  lemma SwitchFromRendered(declared: HostMap, place: Place, locale: string, browser: string)
    requires ValidMap(declared) && On(declared, place.surface) && IsLocale(locale)
    requires RenderedOn(place.surface, place.page)
    ensures Follow(declared, place.surface, LocaleLink(RuntimeHosts(declared), place.page, locale), browser).Some?
    ensures (Follow(declared, place.surface, LocaleLink(RuntimeHosts(declared), place.page, locale), browser)
             == Some(place.(page := InLocale(place.page, locale)))) <==> !SiteRouteCrosses(declared, place)
  {
    TableIsInjective(declared);
    FollowSwitch(declared, place, locale, browser);
    SwitchShows(declared, place, locale);
  }

  lemma FollowSwitch(declared: HostMap, place: Place, locale: string, browser: string)
    requires ValidMap(declared) && On(declared, place.surface) && IsLocale(locale)
    requires RenderedOn(place.surface, place.page)
    ensures var to := LinkOf(RuntimeHosts(declared), place.page);
      var within := Within(to.hosts, to.surface) + (if to.rest == "" then [] else [to.rest]);
      Follow(declared, place.surface, LocaleLink(RuntimeHosts(declared), place.page, locale), browser)
      == Some(PlaceOf(declared, if HasHost(to.hosts, to.surface) then to.surface else place.surface, locale, within))
  {
    var to := LinkOf(RuntimeHosts(declared), place.page);
    TableMatches(declared);
    LocaleLinkIsALink(RuntimeHosts(declared), place.surface, place.page, locale);
    FollowLink(declared, to.hosts, place.surface, to.surface, locale, to.rest, browser);
    OneSegment(to.rest);
  }

  /** A language link as a table, a surface and a rest: the site prints its links without a table. */
  datatype Printed = Printed(hosts: map<Surface, string>, surface: Surface, rest: string)

  function LinkOf(hosts: map<Surface, string>, page: Page): Printed
    requires HasLocaleLinks(page)
  {
    match page
    case DemoPage(_) => Printed(hosts, Demo, "")
    case StatusPage(_) => Printed(hosts, Status, "")
    case CommunityPage(_) => Printed(hosts, Community, "")
    case DocsPage(_, slug) => Printed(hosts, Docs, slug)
    case SitePage(_, route) => Printed(map[], Marketing, if route == "home" then "" else route)
  }

  lemma LocaleLinkIsALink(hosts: map<Surface, string>, s: Surface, page: Page, locale: string)
    requires RenderedOn(s, page)
    ensures var to := LinkOf(hosts, page);
      LocaleLink(hosts, page, locale) == BuildLocaleHref(to.hosts, to.surface, locale, to.rest)
      && (to.rest == "" || IsPlainSegment(to.rest))
  {
    if page.SitePage? {
      SiteLinkIsALink(page.route, locale);
    }
  }

  lemma SiteLinkIsALink(route: string, locale: string)
    requires IsPlainSegment(route)
    ensures "/" + locale + (if route == "home" then "" else "/" + route)
            == BuildLocaleHref(map[], Marketing, locale, if route == "home" then "" else route)
  {
    if route == "home" {
      assert "/" + locale + "" + "" == "/" + locale + "";
    } else {
      assert route[0] in route;
      SiteText(locale, route);
      assert "/" + locale + ("/" + route) == "/" + locale + "/" + route;
    }
  }

  lemma SwitchShows(declared: HostMap, place: Place, locale: string)
    requires ValidMap(declared) && On(declared, place.surface) && RenderedOn(place.surface, place.page)
    requires forall s :: HasHost(RuntimeHosts(declared), s) <==> HostFor(declared, s).Some?
    ensures var to := LinkOf(RuntimeHosts(declared), place.page);
      var within := Within(to.hosts, to.surface) + (if to.rest == "" then [] else [to.rest]);
      (PlaceOf(declared, if HasHost(to.hosts, to.surface) then to.surface else place.surface, locale, within)
       == place.(page := InLocale(place.page, locale))) <==> !SiteRouteCrosses(declared, place)
  {
    var to := LinkOf(RuntimeHosts(declared), place.page);
    var within := Within(to.hosts, to.surface) + (if to.rest == "" then [] else [to.rest]);
    OnAllMeansOneHost(declared, place.surface);
    if place.surface.All? && !place.page.SitePage? {
      assert within[0] == Name(to.surface);
    } else {
      assert within == if to.rest == "" then [] else [to.rest];
    }
  }

  /** Following a printed language link shows the same page in the new language, unless the page is a site page of
      a route that has a host of its own. */
  lemma LanguageSwitchKeepsThePage(declared: HostMap, s: Surface, pathname: string, locale: string, browser: string)
    requires ValidMap(declared) && On(declared, s) && Plain(pathname) && IsLocale(locale)
    requires HasLocaleLinks(Render(s, Of(pathname), browser))
    ensures var page := Render(s, Of(pathname), browser);
      (Follow(declared, s, LocaleLink(RuntimeHosts(declared), page, locale), browser)
       == Some(Place(s, InLocale(page, locale)))) <==> !SiteRouteCrosses(declared, Place(s, page))
  {
    RenderStaysOn(s, pathname, browser);
    SwitchFromRendered(declared, Place(s, Render(s, Of(pathname), browser)), locale, browser);
  }

  /** Where the language link of such a page leads instead: the root of the other host. */
  lemma SwitchLeavesTheSite(declared: HostMap, page: Page, locale: string, browser: string)
    requires ValidMap(declared) && On(declared, Marketing) && IsLocale(locale)
    requires RenderedOn(Marketing, page) && SiteRouteCrosses(declared, Place(Marketing, page))
    ensures var to := Crossing(page.route).value;
      Follow(declared, Marketing, LocaleLink(RuntimeHosts(declared), page, locale), browser)
      == Some(Place(to, Intended(to, locale, [])))
  {
    FollowSwitch(declared, Place(Marketing, page), locale, browser);
    var within := [] + [page.route];
    assert within == [page.route] && within[1..] == [];
  }

  /** The site does render such pages: a path with no locale and more behind the route is not redirected. */
  lemma UnlocalizedPathIsNotRedirected(declared: HostMap, pathname: string, browser: string)
    requires ValidMap(declared) && |Of(pathname)| >= 2 && !IsLocale(Of(pathname)[0])
    ensures Visit(declared, Marketing, pathname, browser) == Some(Place(Marketing, SitePage(browser, Of(pathname)[0])))
  {
    RedirectIsALink(declared, pathname);
  }

  /** So below an unlocalized `/docs/` of a site whose documentation has a host, switching the language loses the
      page. */
  lemma UnlocalizedPathLosesItsPage(declared: HostMap, pathname: string, locale: string, browser: string)
    requires ValidMap(declared) && HostFor(declared, Marketing).Some? && HostFor(declared, Docs).Some?
    requires Plain(pathname) && |Of(pathname)| >= 2 && Of(pathname)[0] == "docs" && IsLocale(locale)
    ensures var page := SitePage(browser, "docs");
      Visit(declared, Marketing, pathname, browser) == Some(Place(Marketing, page))
      && Follow(declared, Marketing, LocaleLink(RuntimeHosts(declared), page, locale), browser)
         == Some(Place(Docs, DocsPage(locale, "")))
  {
    PlainPieces(pathname);
    var route := Of(pathname)[0];
    assert route in Of(pathname);
    UnlocalizedPathIsNotRedirected(declared, pathname, browser);
    HostsAreDeclared(declared, Docs);
    SwitchLeavesTheSite(declared, SitePage(browser, route), locale, browser);
  }

  /** The place a language link of a place leads to. */
  function SwitchTo(declared: HostMap, hosts: map<Surface, string>, browser: string): (Place, string) -> Option<Place> {
    (place: Place, locale: string) =>
      if HasLocaleLinks(place.page)
      then Follow(declared, place.surface, LocaleLink(hosts, place.page, locale), browser) else None
  }

  function SwitchAll(switch: (Place, string) -> Option<Place>, place: Place, locales: seq<string>): Option<Place>
    decreases |locales|
  {
    if locales == [] then Some(place)
    else match switch(place, locales[0])
      case None => None
      case Some(next) => SwitchAll(switch, next, locales[1..])
  }

  /** One page, whatever its language. */
  predicate SamePage(a: Place, b: Place) {
    && a.surface == b.surface && HasLocaleLinks(a.page) && HasLocaleLinks(b.page)
    && InLocale(a.page, "") == InLocale(b.page, "")
  }

  function PlaceIn(place: Place, locale: string): Place
    requires HasLocaleLinks(place.page)
  {
    place.(page := InLocale(place.page, locale))
  }

  /** A chain of switches that all keep the page ends where its last one ends. */
  lemma {:induction false} ChainOfSwitches(
    switch: (Place, string) -> Option<Place>, place: Place, locales: seq<string>, start: Place)
    requires SamePage(place, start) && locales != []
    requires forall p, l :: SamePage(p, start) && l in locales ==> switch(p, l) == Some(PlaceIn(p, l))
    ensures SwitchAll(switch, place, locales) == Some(PlaceIn(start, locales[|locales| - 1]))
    decreases |locales|
  {
    assert locales[0] in locales;
    var next := PlaceIn(place, locales[0]);
    assert switch(place, locales[0]) == Some(next) && SamePage(next, start);
    if |locales| == 1 {
      assert SwitchAll(switch, next, []) == Some(next);
      assert locales[1..] == [];
    } else {
      assert forall l :: l in locales[1..] ==> l in locales;
      ChainOfSwitches(switch, next, locales[1..], start);
    }
  }

  /** A page in another language is still one its surface renders, and its route still crosses or does not. */
  lemma SamePageStays(declared: HostMap, a: Place, b: Place)
    requires SamePage(a, b) && RenderedOn(b.surface, b.page) && !SiteRouteCrosses(declared, b)
    ensures RenderedOn(a.surface, a.page) && !SiteRouteCrosses(declared, a)
  {}

  /** Any chain of language switches ends where the last one alone ends. */
  lemma LastSwitchDecides(declared: HostMap, place: Place, locales: seq<string>, browser: string)
    requires ValidMap(declared) && On(declared, place.surface) && RenderedOn(place.surface, place.page)
    requires locales != [] && (forall l :: l in locales ==> IsLocale(l)) && !SiteRouteCrosses(declared, place)
    ensures SwitchAll(SwitchTo(declared, RuntimeHosts(declared), browser), place, locales)
            == Some(PlaceIn(place, locales[|locales| - 1]))
  {
    var switch := SwitchTo(declared, RuntimeHosts(declared), browser);
    forall p, l | SamePage(p, place) && l in locales ensures switch(p, l) == Some(PlaceIn(p, l)) {
      SamePageStays(declared, p, place);
      SwitchFromRendered(declared, p, l, browser);
    }
    ChainOfSwitches(switch, place, locales, place);
  }
}
