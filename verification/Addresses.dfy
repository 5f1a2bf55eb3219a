/** Host tables, the printer of links, and the navigation it prints. A rest is text without `?` or `#`. */
module Addresses {
  import opened Options
  import opened Segments

  datatype Surface = All | Marketing | App | Demo | Docs | Api | Status | Community

  function Name(s: Surface): (name: string)
    ensures IsSegment(name) && Plain(name) && !IsLocale(name)
  {
    match s
    case All => "all"
    case Marketing => "marketing"
    case App => "app"
    case Demo => "demo"
    case Docs => "docs"
    case Api => "api"
    case Status => "status"
    case Community => "community"
  }

  predicate IsLocale(s: string) { s == "en" || s == "pl" || s == "de" }

  // ----- the declared hosts ---------------------------------------------------------------------------------------

  datatype Declared = Declared(hostname: string, surface: Surface)

  /** The declared host map in its order; without declarations there is no map and one host serves everything. */
  type HostMap = seq<Declared>

  ghost predicate ValidMap(declared: HostMap) {
    && (forall d :: d in declared ==> IsHost(d.hostname) && d.surface != All)
    && (forall i, j :: 0 <= i < j < |declared| ==> declared[i].hostname != declared[j].hostname)
  }

  /** The first hostname declared for a surface. */
  function HostFor(declared: HostMap, s: Surface): Option<string> {
    if declared == [] then None
    else if declared[0].surface == s then Some(declared[0].hostname)
    else HostFor(declared[1..], s)
  }

  function Lookup(declared: HostMap, hostname: string): Option<Surface> {
    if declared == [] then None
    else if declared[0].hostname == hostname then Some(declared[0].surface)
    else Lookup(declared[1..], hostname)
  }

  function ResolveSurface(declared: HostMap, hostname: string): Option<Surface> {
    if declared == [] then Some(All) else Lookup(declared, hostname)
  }

  /** The host table the document carries. */
  ghost function RuntimeHosts(declared: HostMap): map<Surface, string> {
    map s: Surface | HostFor(declared, s).Some? :: HostFor(declared, s).value
  }

  ghost predicate IsFirstFor(declared: HostMap, i: nat, s: Surface) {
    i < |declared| && declared[i].surface == s && forall j :: 0 <= j < i ==> declared[j].surface != s
  }

  /** A surface's host is the first hostname declared for it, and there is none exactly when it is not declared. */
  lemma {:induction false} HostForIsTheFirst(declared: HostMap, s: Surface)
    ensures forall i: nat :: IsFirstFor(declared, i, s) ==> HostFor(declared, s) == Some(declared[i].hostname)
    ensures HostFor(declared, s).None? <==> forall d :: d in declared ==> d.surface != s
  {
    if declared == [] {
    } else {
      var rest := declared[1..];
      HostForIsTheFirst(rest, s);
      assert forall i: nat :: i < |rest| ==> rest[i] == declared[i + 1];
      assert forall d :: d in declared <==> d == declared[0] || d in rest;
      forall i: nat | IsFirstFor(declared, i, s) ensures HostFor(declared, s) == Some(declared[i].hostname) {
        if i > 0 {
          assert declared[0].surface != s;
          assert IsFirstFor(rest, i - 1, s);
        }
      }
    }
  }

  /** A hostname is resolved exactly as it is declared. */
  lemma {:induction false} LookupIsExact(declared: HostMap, hostname: string, s: Surface)
    requires ValidMap(declared)
    ensures Lookup(declared, hostname) == Some(s) <==> Declared(hostname, s) in declared
  {
    if declared == [] {
    } else {
      var first, rest := declared[0], declared[1..];
      assert forall d :: d in declared <==> d == first || d in rest;
      assert forall i: nat :: i < |rest| ==> rest[i] == declared[i + 1];
      assert first.hostname == hostname ==> forall d :: d in rest ==> d.hostname != hostname;
      LookupIsExact(rest, hostname, s);
    }
  }

  lemma {:induction false} HostForExtends(before: HostMap, next: Declared, s: Surface)
    ensures HostFor(before + [next], s) ==
            if HostFor(before, s).Some? then HostFor(before, s)
            else if next.surface == s then Some(next.hostname) else None
  {
    if before == [] {
      assert (before + [next])[1..] == [];
    } else {
      assert (before + [next])[1..] == before[1..] + [next];
      HostForExtends(before[1..], next, s);
    }
  }

  method RuntimeConfig(declared: HostMap) returns (hosts: map<Surface, string>)
    ensures hosts == RuntimeHosts(declared)
  {
    hosts := map[];
    for i := 0 to |declared|
      invariant hosts == RuntimeHosts(declared[..i])
    {
      assert declared[..i + 1] == declared[..i] + [declared[i]];
      forall s ensures HostFor(declared[..i + 1], s) ==
                       if HostFor(declared[..i], s).Some? then HostFor(declared[..i], s)
                       else if declared[i].surface == s then Some(declared[i].hostname) else None
      {
        HostForExtends(declared[..i], declared[i], s);
      }
      if declared[i].surface !in hosts {
        hosts := hosts[declared[i].surface := declared[i].hostname];
      }
    }
    assert declared[..|declared|] == declared;
  }

  /** The host a link to a surface names resolves back to that surface. */
  lemma {:induction false} HostForResolves(declared: HostMap, s: Surface)
    requires ValidMap(declared) && HostFor(declared, s).Some?
    ensures s != All && IsHost(HostFor(declared, s).value)
    ensures Lookup(declared, HostFor(declared, s).value) == Some(s)
  {
    assert declared[0] in declared;
    if declared[0].surface == s {
    } else {
      assert ValidMap(declared[1..]) by {
        assert forall d :: d in declared[1..] ==> d in declared;
      }
      HostForResolves(declared[1..], s);
      HostForIsDeclared(declared[1..], s);
    }
  }

  lemma {:induction false} HostForIsDeclared(declared: HostMap, s: Surface)
    requires HostFor(declared, s).Some?
    ensures exists i :: 0 <= i < |declared| && declared[i] == Declared(HostFor(declared, s).value, s)
  {
    if declared[0].surface != s {
      HostForIsDeclared(declared[1..], s);
      var i :| 0 <= i < |declared[1..]| && declared[1..][i] == Declared(HostFor(declared[1..], s).value, s);
      assert declared[i + 1] == declared[1..][i];
    } else {
      assert declared[0] == Declared(HostFor(declared, s).value, s);
    }
  }

  lemma {:induction false} LookupIsHosted(declared: HostMap, hostname: string)
    requires Lookup(declared, hostname).Some?
    ensures HostFor(declared, Lookup(declared, hostname).value).Some?
  {
    if declared[0].hostname == hostname {
    } else {
      LookupIsHosted(declared[1..], hostname);
    }
  }

  /** The surface a request is answered on: whatever the server's resolution can return. */
  predicate On(declared: HostMap, s: Surface) {
    if declared == [] then s == All else HostFor(declared, s).Some?
  }

  /** What the browser knows: the surface it is on and the host table. */
  datatype Runtime = Runtime(surface: Surface, hosts: map<Surface, string>)

  const FALLBACK := Runtime(All, map[])

  /** The meta tag as it is found: missing or empty, not JSON, or an object whose parts may be missing. */
  datatype Tag = Missing | Unreadable | Stated(surface: Option<Surface>, hosts: Option<map<Surface, string>>)

  function ReadTag(tag: Tag): Runtime {
    match tag
    case Missing => FALLBACK
    case Unreadable => FALLBACK
    case Stated(s, hosts) =>
      Runtime(if s.Some? then s.value else All, if hosts.Some? then hosts.value else map[])
  }

  /** `all` exactly without a host table, any other surface is in the table, no two surfaces share a host. */
  ghost predicate Consistent(r: Runtime) {
    && (r.surface == All <==> r.hosts == map[])
    && (r.surface != All ==> HasHost(r.hosts, r.surface))
    && Injective(r.hosts)
  }

  /** What a browser reads is consistent, whether it reads what the server stated for a declared host or falls back
      because it finds nothing it can read. */
  lemma RuntimeIsConsistent(declared: HostMap, hostname: string, tag: Tag)
    requires ValidMap(declared) && ResolveSurface(declared, hostname).Some?
    requires tag.Stated? ==>
               tag.surface == ResolveSurface(declared, hostname) && tag.hosts == Some(RuntimeHosts(declared))
    ensures On(declared, ResolveSurface(declared, hostname).value)
    ensures Consistent(ReadTag(tag))
  {
    var hosts := RuntimeHosts(declared);
    var s := ResolveSurface(declared, hostname).value;
    if declared != [] {
      LookupIsHosted(declared, hostname);
      HostForResolves(declared, s);
      assert s in hosts;
    }
    TableIsInjective(declared);
  }

  predicate HasHost(hosts: map<Surface, string>, s: Surface) { s in hosts && hosts[s] != "" }

  /** `hosts?.[surface]`, where a missing or an empty entry is no host. */
  function Host(hosts: map<Surface, string>, s: Surface): string {
    if s in hosts then hosts[s] else ""
  }

  ghost predicate Injective(hosts: map<Surface, string>) {
    forall a, b :: HasHost(hosts, a) && HasHost(hosts, b) && a != b ==> hosts[a] != hosts[b]
  }

  ghost predicate ProperTable(hosts: map<Surface, string>) {
    forall s :: HasHost(hosts, s) ==> IsHost(hosts[s])
  }

  lemma TableIsInjective(declared: HostMap)
    requires ValidMap(declared)
    ensures Injective(RuntimeHosts(declared)) && ProperTable(RuntimeHosts(declared))
    ensures forall s :: HasHost(RuntimeHosts(declared), s) <==> HostFor(declared, s).Some?
  {
    forall s | HostFor(declared, s).Some?
      ensures IsHost(HostFor(declared, s).value) && Lookup(declared, HostFor(declared, s).value) == Some(s)
    {
      HostForResolves(declared, s);
    }
  }

  // ----- printing an address --------------------------------------------------------------------------------------

  function Tail(rest: string): string { if rest == "" then "" else "/" + StripSlash(rest) }

  function BuildLocaleHref(hosts: map<Surface, string>, s: Surface, locale: string, rest: string): string {
    if HasHost(hosts, s) then
      SCHEME + hosts[s] + ("/" + locale + (if s.App? then "/app" else "") + Tail(rest))
    else
      "/" + locale + (if s.Marketing? || s.All? then "" else "/" + Name(s)) + Tail(rest)
  }

  /** The segments that name a surface inside the host it is on. */
  function Within(hosts: map<Surface, string>, s: Surface): seq<string> {
    if HasHost(hosts, s) then (if s.App? then ["app"] else [])
    else if s.Marketing? || s.All? then [] else [Name(s)]
  }

  lemma LocaleIsSegment(locale: string)
    requires IsLocale(locale)
    ensures IsSegment(locale) && Plain(locale)
  {}

  lemma TailSegments(rest: string)
    requires Plain(rest)
    ensures Of(Tail(rest)) == Of(rest) && Plain(Tail(rest))
    ensures Tail(rest) == "" || Tail(rest)[0] == '/'
  {
    if rest != "" {
      LeadingSlash(StripSlash(rest));
      StripSlashKeepsSegments(rest);
      assert forall c :: c in StripSlash(rest) ==> c in rest;
    }
  }

  /** One segment in front of a path. */
  lemma SegmentThenPath(segment: string, path: string)
    requires IsSegment(segment) && (path == "" || path[0] == '/')
    ensures Of("/" + segment + path) == [segment] + Of(path)
  {
    OneSegment(segment);
    if path == "" {
      assert "/" + segment + path == "/" + segment;
      LeadingSlash(segment);
      OneSegment("");
    } else {
      SegmentBeforeSlash(segment, path[1..]);
      assert "/" + path[1..] == path;
    }
  }

  lemma SegmentBeforeSlash(segment: string, rest: string)
    requires IsSegment(segment)
    ensures Of("/" + segment + ("/" + rest)) == [segment] + Of("/" + rest)
  {
    OneSegment(segment);
    SlashSeparates(segment, rest);
    LeadingSlash(rest);
    LeadingSlash(segment + "/" + rest);
    Regrouped(segment, rest);
  }

  lemma Regrouped(segment: string, rest: string)
    ensures "/" + segment + ("/" + rest) == "/" + (segment + "/" + rest)
  {}

  /** The place of a surface on its host, as the text between the locale and the tail. */
  function Middle(hosts: map<Surface, string>, s: Surface): string {
    if Within(hosts, s) == [] then "" else "/" + Within(hosts, s)[0]
  }

  lemma MiddleSegments(hosts: map<Surface, string>, s: Surface, rest: string)
    requires Plain(rest)
    ensures var path := Middle(hosts, s) + Tail(rest);
      Of(path) == Within(hosts, s) + Of(rest) && Plain(path) && (path == "" || path[0] == '/')
  {
    TailSegments(rest);
    var within := Within(hosts, s);
    if within == [] {
      assert Middle(hosts, s) + Tail(rest) == Tail(rest);
    } else {
      assert within == [within[0]] && IsSegment(within[0]) && Plain(within[0]);
      SegmentThenPath(within[0], Tail(rest));
    }
  }

  lemma HrefText(hosts: map<Surface, string>, s: Surface, locale: string, rest: string)
    ensures var path := "/" + locale + (Middle(hosts, s) + Tail(rest));
      BuildLocaleHref(hosts, s, locale, rest) == if HasHost(hosts, s) then SCHEME + hosts[s] + path else path
  {
    var middle := if s.App? then "/app" else "";
    if HasHost(hosts, s) {
      assert Middle(hosts, s) == middle by { assert "/" + "app" == "/app"; }
      Grouped("/" + locale, middle, Tail(rest));
    } else {
      Grouped("/" + locale, Middle(hosts, s), Tail(rest));
    }
  }

  lemma Grouped(a: string, b: string, c: string)
    ensures a + b + c == a + (b + c)
  {}

  /** A printed address comes apart again: its host is the table's, its segments are the locale, the surface's
      own place on that host, and the segments of the rest. */
  lemma AddressComesApart(hosts: map<Surface, string>, s: Surface, locale: string, rest: string)
    requires ProperTable(hosts) && IsLocale(locale) && Plain(rest)
    ensures HostOf(BuildLocaleHref(hosts, s, locale, rest)) == Host(hosts, s)
    ensures Of(PathnameOf(BuildLocaleHref(hosts, s, locale, rest))) == [locale] + (Within(hosts, s) + Of(rest))
    ensures Plain(PathnameOf(BuildLocaleHref(hosts, s, locale, rest)))
  {
    var inner := Middle(hosts, s) + Tail(rest);
    var path := "/" + locale + inner;
    HrefText(hosts, s, locale, rest);
    MiddleSegments(hosts, s, rest);
    LocaleIsSegment(locale);
    SegmentThenPath(locale, inner);
    if HasHost(hosts, s) {
      AbsoluteAddress(hosts[s], path);
    } else {
      RelativeAddress(path);
    }
  }

  // ----- no two addresses collide ---------------------------------------------------------------------------------

  /** A destination inside a locale: a surface, and the path within it. */
  datatype Target = Target(surface: Surface, rest: string)

  function Print(hosts: map<Surface, string>, locale: string, t: Target): string {
    BuildLocaleHref(hosts, t.surface, locale, t.rest)
  }

  /** Equal addresses mean the same host and the same segments on it. */
  lemma CollisionMeansSamePlace(hosts: map<Surface, string>, locale: string, a: Target, b: Target)
    requires ProperTable(hosts) && IsLocale(locale) && Plain(a.rest) && Plain(b.rest)
    requires Print(hosts, locale, a) == Print(hosts, locale, b)
    ensures Host(hosts, a.surface) == Host(hosts, b.surface)
    ensures Within(hosts, a.surface) + Of(a.rest) == Within(hosts, b.surface) + Of(b.rest)
  {
    AddressComesApart(hosts, a.surface, locale, a.rest);
    AddressComesApart(hosts, b.surface, locale, b.rest);
    SameHead(locale, Within(hosts, a.surface) + Of(a.rest), Within(hosts, b.surface) + Of(b.rest));
  }

  lemma SameHead(head: string, x: seq<string>, y: seq<string>)
    requires [head] + x == [head] + y
    ensures x == y
  {
    assert x == ([head] + x)[1..] && y == ([head] + y)[1..];
  }

  const SITE_NAV: seq<string> := ["product", "community", "cloud", "connect", "regulatory", "services", "docs"]

  const SURFACE_LINKS: seq<Surface> := [Marketing, Demo, Status]

  function NavTarget(key: string): Target {
    if key == "docs" then Target(Docs, "") else Target(Marketing, key)
  }

  function SiteNavItems(locale: string, hosts: map<Surface, string>): (hrefs: seq<string>)
    ensures |hrefs| == |SITE_NAV|
  {
    seq(|SITE_NAV|, i requires 0 <= i < |SITE_NAV| => Print(hosts, locale, NavTarget(SITE_NAV[i])))
  }

  function SurfaceLinkItems(locale: string, hosts: map<Surface, string>): (hrefs: seq<string>)
    ensures |hrefs| == |SURFACE_LINKS|
  {
    seq(|SURFACE_LINKS|, i requires 0 <= i < |SURFACE_LINKS| => Print(hosts, locale, Target(SURFACE_LINKS[i], "")))
  }

  /** Where entry `i` of a surface header leads, site navigation first. */
  function HeaderTarget(i: nat): Target
    requires i < |SITE_NAV| + |SURFACE_LINKS|
  {
    if i < |SITE_NAV| then NavTarget(SITE_NAV[i]) else Target(SURFACE_LINKS[i - |SITE_NAV|], "")
  }

  predicate IsNavTarget(t: Target) {
    t.rest == "" || (t.surface.Marketing? && IsSegment(t.rest) && Plain(t.rest) && t.rest != "docs" && t.rest != "demo"
                     && t.rest != "status")
  }

  /** Two entries that print alike are one entry, however much of the table is missing. */
  lemma NavTargetsDiffer(hosts: map<Surface, string>, locale: string, a: Target, b: Target)
    requires ProperTable(hosts) && Injective(hosts) && IsLocale(locale)
    requires IsNavTarget(a) && IsNavTarget(b)
    requires a.surface in {Marketing, Docs, Demo, Status} && b.surface in {Marketing, Docs, Demo, Status}
    requires Print(hosts, locale, a) == Print(hosts, locale, b)
    ensures a == b
  {
    CollisionMeansSamePlace(hosts, locale, a, b);
    OneSegment(a.rest);
    OneSegment(b.rest);
    var x, y := Within(hosts, a.surface) + Of(a.rest), Within(hosts, b.surface) + Of(b.rest);
    assert x != [] && y != [] ==> x[0] == y[0];
    if a.surface == b.surface {
      assert Of(a.rest) == x[|Within(hosts, a.surface)|..];
      assert Of(b.rest) == y[|Within(hosts, b.surface)|..];
      if a.rest != "" && b.rest != "" {
        assert Of(a.rest)[0] == a.rest && Of(b.rest)[0] == b.rest;
      }
    }
  }

  /** The site navigation and the surface links of one header never name one address twice. */
  lemma NavigationNeverCollides(hosts: map<Surface, string>, locale: string, i: nat, j: nat)
    requires ProperTable(hosts) && Injective(hosts) && IsLocale(locale)
    requires i < j < |SITE_NAV| + |SURFACE_LINKS|
    ensures var hrefs := SiteNavItems(locale, hosts) + SurfaceLinkItems(locale, hosts); hrefs[i] != hrefs[j]
  {
    TargetsAreDistinct(i, j);
    HeaderTargetIsProper(i);
    HeaderTargetIsProper(j);
    EntryPrintsItsTarget(hosts, locale, i);
    EntryPrintsItsTarget(hosts, locale, j);
    if Print(hosts, locale, HeaderTarget(i)) == Print(hosts, locale, HeaderTarget(j)) {
      NavTargetsDiffer(hosts, locale, HeaderTarget(i), HeaderTarget(j));
    }
  }

  lemma EntryPrintsItsTarget(hosts: map<Surface, string>, locale: string, i: nat)
    requires i < |SITE_NAV| + |SURFACE_LINKS|
    ensures (SiteNavItems(locale, hosts) + SurfaceLinkItems(locale, hosts))[i] == Print(hosts, locale, HeaderTarget(i))
  {}

  lemma KeysAreDistinct(i: nat, j: nat)
    requires i < j < |SITE_NAV|
    ensures SITE_NAV[i] != SITE_NAV[j]
  {
    assert (SITE_NAV[i][0], |SITE_NAV[i]|) != (SITE_NAV[j][0], |SITE_NAV[j]|);
  }

  lemma KeyIsWord(i: nat)
    requires i < |SITE_NAV|
    ensures IsSegment(SITE_NAV[i])
    ensures Plain(SITE_NAV[i])
  {
    var key := SITE_NAV[i];
    assert forall k :: 0 <= k < |key| ==> 'a' <= key[k] <= 'z';
  }

  lemma KeyIsProper(i: nat)
    requires i < |SITE_NAV|
    ensures IsNavTarget(Target(Marketing, SITE_NAV[i])) || SITE_NAV[i] == "docs"
    ensures SITE_NAV[i] != ""
  {
    KeyIsWord(i);
    assert SITE_NAV[i][0] != 's' || SITE_NAV[i][1] == 'e';
    assert SITE_NAV[i][0] != 'd' || SITE_NAV[i][1] == 'o';
  }

  lemma TargetsAreDistinct(i: nat, j: nat)
    requires i < j < |SITE_NAV| + |SURFACE_LINKS|
    ensures HeaderTarget(i) != HeaderTarget(j)
  {
    if j < |SITE_NAV| {
      KeysAreDistinct(i, j);
    } else if i < |SITE_NAV| {
      KeyIsProper(i);
    }
  }

  lemma HeaderTargetIsProper(i: nat)
    requires i < |SITE_NAV| + |SURFACE_LINKS|
    ensures IsNavTarget(HeaderTarget(i)) && HeaderTarget(i).surface in {Marketing, Docs, Demo, Status}
  {
    if i < |SITE_NAV| {
      KeyIsProper(i);
    }
  }
}
