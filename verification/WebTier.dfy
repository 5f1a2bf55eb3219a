/** The request path of the web tier: what is decided about a request, and the one response head it gets. */
module WebTier {
  import opened Options
  import opened Segments
  import opened Addresses
  import Routing
  import PathResolution

  /** A request as far as the decision goes: the pathname of its URL, the addressed hostname, and the pathname with
      its percent-encoding undone when it can be. */
  datatype Request = Request(readable: bool, pathname: string, hostname: string, verb: string, decoded: Option<string>)

  datatype Site = Site(declared: HostMap, root: seq<string>)

  datatype Decision =
    | HealthReply
    | MovedTo(location: string)
    | NotFound
    | ForwardToApi
    | MethodNotAllowed
    | BadRequest
    | Shell(surface: Surface)
    | Stream(file: string)

  predicate Repeatable(verb: string) { verb == "GET" || verb == "HEAD" }

  predicate IsApiPath(pathname: string) { "/v1/" <= pathname }

  /** `www.` in front of a declared host that is not itself declared. */
  function CanonicalHost(declared: HostMap, hostname: string): Option<string> {
    if declared == [] || !("www." <= hostname) || Lookup(declared, hostname).Some? then None
    else
      var bare := hostname[4..];
      if bare != "" && Lookup(declared, bare).Some? then Some(bare) else None
  }

  function CanonicalLocation(host: string, pathname: string): string { SCHEME + host + ("/" + StripSlashes(pathname)) }

  predicate ServesApi(s: Surface) { s.Api? || s.App? || s.Demo? || s.Marketing? }

  function DecideUnknown(declared: HostMap, r: Request): Decision {
    if Repeatable(r.verb) && !IsApiPath(r.pathname) && CanonicalHost(declared, r.hostname).Some?
    then MovedTo(CanonicalLocation(CanonicalHost(declared, r.hostname).value, r.pathname))
    else NotFound
  }

  /** Below the health and API routes: redirects of the site, then documents. */
  function DecideDocument(site: Site, s: Surface, r: Request, isFile: string -> bool): Decision {
    if s.Api? then NotFound
    else if Routing.Redirect(site.declared, s, r.pathname).Some?
    then MovedTo(Routing.Redirect(site.declared, s, r.pathname).value)
    else if !Repeatable(r.verb) then MethodNotAllowed
    else match r.decoded
      case None => BadRequest
      case Some(path) =>
        match PathResolution.Location(site.root, path, isFile)
        case Refused => NotFound
        case Opened(file) =>
          if file == PathResolution.Text(site.root + [PathResolution.INDEX]) then Shell(s) else Stream(file)
  }

  /** The decision, read off the request alone. */
  function Decide(site: Site, r: Request, isFile: string -> bool): Decision {
    if r.pathname == "/health" then HealthReply
    else match ResolveSurface(site.declared, r.hostname)
      case None => DecideUnknown(site.declared, r)
      case Some(s) =>
        if r.pathname == "/health/live" || r.pathname == "/health/ready" then ForwardToApi
        else if IsApiPath(r.pathname) then
          if site.declared != [] && r.pathname != "/v1/version" && !ServesApi(s) then NotFound else ForwardToApi
        else DecideDocument(site, s, r, isFile)
  }

  // ----- what the decision guarantees -----------------------------------------------------------------------------

  /** The API is reached exactly through its readiness paths on any known host, its own paths where it is served,
      and its version everywhere. */
  lemma ForwardsExactly(site: Site, r: Request, isFile: string -> bool)
    ensures Decide(site, r, isFile).ForwardToApi? <==>
            && ResolveSurface(site.declared, r.hostname).Some?
            && var s := ResolveSurface(site.declared, r.hostname).value;
              || r.pathname == "/health/live" || r.pathname == "/health/ready"
              || (IsApiPath(r.pathname) && (site.declared == [] || ServesApi(s) || r.pathname == "/v1/version"))
  {
    var health, api := "/health", "/v1/";
    assert health[1] == 'h' && api[1] == 'v';
  }

  /** The application's own documents and redirects never come from the API host, nor from an undeclared one; an
      undeclared host gets a refusal or the way to its declared spelling. */
  lemma NoDocumentWithoutItsHost(site: Site, r: Request, isFile: string -> bool)
    requires ValidMap(site.declared) && Plain(r.pathname)
    ensures var d := Decide(site, r, isFile);
      var s := ResolveSurface(site.declared, r.hostname);
      && (d.Shell? || d.Stream? ==> s.Some? && s.value != Api && Repeatable(r.verb))
      && (s.None? ==> d.HealthReply? || d.NotFound? ||
                      (d.MovedTo? && Repeatable(r.verb) && ResolveSurface(site.declared, HostOf(d.location)).Some?))
  {
    if ResolveSurface(site.declared, r.hostname).None? && DecideUnknown(site.declared, r).MovedTo? {
      CanonicalRedirectShape(site.declared, r.hostname, r.pathname);
    }
  }

  /** A document is a file strictly below the root. */
  lemma DocumentsLieBelowRoot(site: Site, r: Request, isFile: string -> bool)
    requires PathResolution.IsRoot(site.root) && !isFile(PathResolution.Text(site.root))
    ensures var d := Decide(site, r, isFile);
      d.Stream? ==>
        && isFile(d.file)
        && exists place :: d.file == PathResolution.Text(place) && PathResolution.IsBelow(site.root, place)
  {
    if Decide(site, r, isFile).Stream? {
      PathResolution.OpenedIsBelowRoot(site.root, r.decoded.value, isFile);
    }
  }

  /** The request is one for documents: a known host other than the API's, no path of the API or of its health, and no
      redirect for it. */
  predicate AsksForDocuments(site: Site, r: Request) {
    && ResolveSurface(site.declared, r.hostname).Some?
    && ResolveSurface(site.declared, r.hostname).value != Api
    && r.pathname != "/health" && r.pathname != "/health/live" && r.pathname != "/health/ready"
    && !IsApiPath(r.pathname)
    && Routing.Redirect(site.declared, ResolveSurface(site.declared, r.hostname).value, r.pathname).None?
  }

  predicate ReadsDocuments(site: Site, r: Request) {
    AsksForDocuments(site, r) && (r.verb == "GET" || r.verb == "HEAD") && r.decoded.Some?
  }

  /** What the decoded path of such a request names below the root; None when it leaves the root. */
  function AskedFor(site: Site, r: Request): Option<seq<string>>
    requires r.decoded.Some?
  {
    var n := PathResolution.NormalForm(Of(r.decoded.value));
    if site.root[|site.root| - PathResolution.Left(site.root, n)..] <= n.names
    then Some(PathResolution.NamedBelow(site.root, n)) else None
  }

  function FileOf(site: Site, below: seq<string>): string { PathResolution.Text(site.root + below) }

  /** A file is streamed exactly when a request that reads documents names it, below the root, and it is not the shell's
      own; and the shell is sent exactly when such a request names the shell's file, the root, or no file. */
  lemma DocumentsExactly(site: Site, r: Request, isFile: string -> bool)
    requires PathResolution.IsRoot(site.root) && !isFile(PathResolution.Text(site.root))
    ensures forall f :: Decide(site, r, isFile) == Stream(f) <==>
              && ReadsDocuments(site, r) && AskedFor(site, r).Some? && AskedFor(site, r).value != []
              && f == FileOf(site, AskedFor(site, r).value) && isFile(f) && f != FileOf(site, [PathResolution.INDEX])
    ensures forall s :: Decide(site, r, isFile) == Shell(s) <==>
              && ReadsDocuments(site, r) && Some(s) == ResolveSurface(site.declared, r.hostname)
              && AskedFor(site, r).Some?
              && var f := FileOf(site, AskedFor(site, r).value);
                 f == FileOf(site, [PathResolution.INDEX]) || !isFile(f)
  {
    if ReadsDocuments(site, r) {
      PathResolution.RefusedExactly(site.root, r.decoded.value, isFile);
      PathResolution.FileAskedForIsOpened(site.root, r.decoded.value, isFile);
      assert site.root + [] == site.root;
    }
  }

  /** A request by way of an alias of a declared host. */
  predicate ComesByAlias(site: Site, r: Request) {
    && ResolveSurface(site.declared, r.hostname).None? && (r.verb == "GET" || r.verb == "HEAD")
    && !IsApiPath(r.pathname) && CanonicalHost(site.declared, r.hostname).Some?
  }

  /** A request whose path belongs elsewhere. */
  predicate BelongsElsewhere(site: Site, r: Request) {
    && ResolveSurface(site.declared, r.hostname).Some? && ResolveSurface(site.declared, r.hostname).value != Api
    && r.pathname != "/health/live" && r.pathname != "/health/ready" && !IsApiPath(r.pathname)
    && Routing.Redirect(site.declared, ResolveSurface(site.declared, r.hostname).value, r.pathname).Some?
  }

  lemma MovedExactly(site: Site, r: Request, isFile: string -> bool)
    ensures Decide(site, r, isFile).MovedTo? <==>
            r.pathname != "/health" && (ComesByAlias(site, r) || BelongsElsewhere(site, r))
    ensures Decide(site, r, isFile).MovedTo? ==>
              Decide(site, r, isFile).location ==
              if ComesByAlias(site, r)
              then CanonicalLocation(CanonicalHost(site.declared, r.hostname).value, r.pathname)
              else Routing.Redirect(site.declared, ResolveSurface(site.declared, r.hostname).value, r.pathname).value
  {}

  lemma RefusedRequestsExactly(site: Site, r: Request, isFile: string -> bool)
    ensures Decide(site, r, isFile).MethodNotAllowed? <==>
            AsksForDocuments(site, r) && r.verb != "GET" && r.verb != "HEAD"
    ensures Decide(site, r, isFile).BadRequest? <==>
            AsksForDocuments(site, r) && (r.verb == "GET" || r.verb == "HEAD") && r.decoded.None?
  {}

  /** Whose request is not found: an undeclared host that is no alias, one that asks a surface for an API it does not
      serve, one that asks the API's host for anything else, and one whose path leaves the root. */
  predicate IsNotFound(site: Site, r: Request) {
    var known := ResolveSurface(site.declared, r.hostname);
    && r.pathname != "/health"
    && ((known.None? && !ComesByAlias(site, r))
        || (known.Some? && IsApiPath(r.pathname))
        || known == Some(Api)
        || (ReadsDocuments(site, r) && AskedFor(site, r).None?))
  }

  lemma NotFoundExactly(site: Site, r: Request, isFile: string -> bool)
    requires PathResolution.IsRoot(site.root) && !Decide(site, r, isFile).ForwardToApi?
    ensures Decide(site, r, isFile).NotFound? <==> IsNotFound(site, r)
  {
    var known := ResolveSurface(site.declared, r.hostname);
    if known.Some? && r.pathname != "/health" && !IsApiPath(r.pathname) {
      DocumentNotFoundExactly(site, known.value, r, isFile);
    }
  }

  lemma DocumentNotFoundExactly(site: Site, s: Surface, r: Request, isFile: string -> bool)
    requires PathResolution.IsRoot(site.root)
    ensures DecideDocument(site, s, r, isFile).NotFound? <==>
            || s.Api?
            || (Routing.Redirect(site.declared, s, r.pathname).None? && (r.verb == "GET" || r.verb == "HEAD")
                && r.decoded.Some? && AskedFor(site, r).None?)
  {
    if r.decoded.Some? {
      PathResolution.RefusedExactly(site.root, r.decoded.value, isFile);
    }
  }

  /** Every status line that this tier decides, by what the request is. */
  lemma StatusExactly(site: Site, r: Request, isFile: string -> bool)
    requires PathResolution.IsRoot(site.root) && !isFile(PathResolution.Text(site.root))
    requires !Decide(site, r, isFile).ForwardToApi?
    ensures var status, reading := StatusOf(Decide(site, r, isFile)), r.verb == "GET" || r.verb == "HEAD";
      && (status == 405 <==> AsksForDocuments(site, r) && !reading)
      && (status == 400 <==> AsksForDocuments(site, r) && reading && r.decoded.None?)
      && (status == 301 <==> r.pathname != "/health" && (ComesByAlias(site, r) || BelongsElsewhere(site, r)))
      && (status == 404 <==> IsNotFound(site, r))
      && (status == 200 <==> r.pathname == "/health" || (ReadsDocuments(site, r) && AskedFor(site, r).Some?))
  {
    MovedExactly(site, r, isFile);
    RefusedRequestsExactly(site, r, isFile);
    NotFoundExactly(site, r, isFile);
    ServedExactly(site, r, isFile);
  }

  lemma ServedExactly(site: Site, r: Request, isFile: string -> bool)
    requires PathResolution.IsRoot(site.root)
    ensures Decide(site, r, isFile).HealthReply? <==> r.pathname == "/health"
    ensures Decide(site, r, isFile).Shell? || Decide(site, r, isFile).Stream?
            <==> ReadsDocuments(site, r) && AskedFor(site, r).Some?
  {
    OwnHealthExactly(site, r, isFile);
    var known := ResolveSurface(site.declared, r.hostname);
    if ReachesDocuments(site, r) {
      DecidedAsDocument(site, known.value, r, isFile);
      DocumentServedExactly(site, known.value, r, isFile);
    } else {
      DecidedElsewhere(site, r, isFile);
    }
  }

  /** The request passes the health, host and API routes. */
  predicate ReachesDocuments(site: Site, r: Request) {
    && ResolveSurface(site.declared, r.hostname).Some? && r.pathname != "/health"
    && r.pathname != "/health/live" && r.pathname != "/health/ready" && !IsApiPath(r.pathname)
  }

  lemma OwnHealthExactly(site: Site, r: Request, isFile: string -> bool)
    ensures Decide(site, r, isFile).HealthReply? <==> r.pathname == "/health"
  {}

  lemma DecidedAsDocument(site: Site, s: Surface, r: Request, isFile: string -> bool)
    requires ReachesDocuments(site, r) && ResolveSurface(site.declared, r.hostname) == Some(s)
    ensures Decide(site, r, isFile) == DecideDocument(site, s, r, isFile)
  {}

  lemma DecidedElsewhere(site: Site, r: Request, isFile: string -> bool)
    requires !ReachesDocuments(site, r)
    ensures !Decide(site, r, isFile).Shell? && !Decide(site, r, isFile).Stream?
  {}

  lemma DocumentServedExactly(site: Site, s: Surface, r: Request, isFile: string -> bool)
    requires PathResolution.IsRoot(site.root)
    ensures var d := DecideDocument(site, s, r, isFile);
      d.Shell? || d.Stream? <==>
        && s != Api && Routing.Redirect(site.declared, s, r.pathname).None? && (r.verb == "GET" || r.verb == "HEAD")
        && r.decoded.Some? && AskedFor(site, r).Some?
  {
    if r.decoded.Some? {
      PathResolution.RefusedExactly(site.root, r.decoded.value, isFile);
    }
  }

  /** The `www.` spelling is answered for exactly the hosts that are declared without it, unless it is declared too. */
  lemma CanonicalHostExactly(declared: HostMap, hostname: string, host: string)
    requires ValidMap(declared)
    ensures CanonicalHost(declared, hostname) == Some(host) <==>
            hostname == "www." + host && IsDeclared(declared, host) && !IsDeclared(declared, hostname)
  {
    DeclaredIsFound(declared, hostname);
    DeclaredIsFound(declared, host);
    if hostname == "www." + host {
      assert hostname[4..] == host;
    }
    if CanonicalHost(declared, hostname).Some? {
      assert hostname == "www." + hostname[4..];
    }
    if IsDeclared(declared, host) {
      var d :| d in declared && d.hostname == host;
    }
  }

  ghost predicate IsDeclared(declared: HostMap, hostname: string) {
    exists d :: d in declared && d.hostname == hostname
  }

  lemma {:induction false} DeclaredIsFound(declared: HostMap, hostname: string)
    ensures Lookup(declared, hostname).Some? <==> IsDeclared(declared, hostname)
  {
    if declared == [] {
    } else {
      DeclaredIsFound(declared[1..], hostname);
      if declared[0].hostname == hostname {
        assert declared[0] in declared;
      } else {
        assert forall d :: d in declared <==> d == declared[0] || d in declared[1..];
      }
    }
  }

  lemma {:induction false} LookupIsDeclared(declared: HostMap, hostname: string)
    requires Lookup(declared, hostname).Some?
    ensures exists d :: d in declared && d.hostname == hostname
  {
    if declared[0].hostname == hostname {
      assert declared[0] in declared;
    } else {
      LookupIsDeclared(declared[1..], hostname);
      var d :| d in declared[1..] && d.hostname == hostname;
      assert d in declared;
    }
  }

  /** The canonical redirect names the declared host and nothing else as its authority, and its path is the pathname
      with its leading slashes made one. */
  lemma CanonicalRedirectShape(declared: HostMap, hostname: string, pathname: string)
    requires ValidMap(declared) && CanonicalHost(declared, hostname).Some? && Plain(pathname)
    ensures var host := CanonicalHost(declared, hostname).value;
      var location := CanonicalLocation(host, pathname);
      && Lookup(declared, host).Some? && hostname == "www." + host
      && HostOf(location) == host && SlashFree(host)
      && PathnameOf(location) == "/" + StripSlashes(pathname)
      && Of(PathnameOf(location)) == Of(pathname)
  {
    var host := CanonicalHost(declared, hostname).value;
    CanonicalHostIsDeclared(declared, hostname);
    LocationShape(host, pathname);
  }

  lemma CanonicalHostIsDeclared(declared: HostMap, hostname: string)
    requires ValidMap(declared) && CanonicalHost(declared, hostname).Some?
    ensures var host := CanonicalHost(declared, hostname).value;
      Lookup(declared, host).Some? && hostname == "www." + host && IsHost(host)
  {
    LookupIsDeclared(declared, CanonicalHost(declared, hostname).value);
  }

  lemma LocationShape(host: string, pathname: string)
    requires IsHost(host) && Plain(pathname)
    ensures HostOf(CanonicalLocation(host, pathname)) == host
    ensures PathnameOf(CanonicalLocation(host, pathname)) == "/" + StripSlashes(pathname)
    ensures Of("/" + StripSlashes(pathname)) == Of(pathname)
  {
    var path := "/" + StripSlashes(pathname);
    StrippedIsPlain(pathname);
    PathResolution.StrippedKeepsSegments(pathname);
    LeadingSlash(StripSlashes(pathname));
    AbsoluteAddress(host, path);
  }

  lemma {:induction false} StrippedIsPlain(s: string)
    requires Plain(s)
    ensures Plain(StripSlashes(s))
  {
    if s != "" && s[0] == '/' {
      assert forall c :: c in s[1..] ==> c in s;
      StrippedIsPlain(s[1..]);
    }
  }

  // ----- redirects end --------------------------------------------------------------------------------------------

  /** The hostname and path a redirect sends the browser to. */
  function NextHostname(hostname: string, location: string): string {
    if HostOf(location) == "" then hostname else HostOf(location)
  }

  /** The request a browser makes for a location. */
  function Redirected(r: Request, location: string): Request {
    Request(true, PathnameOf(location), NextHostname(r.hostname, location), r.verb, Some(PathnameOf(location)))
  }

  lemma KnownHostRedirects(site: Site, r: Request, isFile: string -> bool)
    requires ResolveSurface(site.declared, r.hostname).Some?
    ensures Decide(site, r, isFile).MovedTo? ==>
              Routing.Redirect(site.declared, ResolveSurface(site.declared, r.hostname).value, r.pathname)
              == Some(Decide(site, r, isFile).location)
  {}

  /** After a redirect from a known host there is no other. */
  lemma OneRedirectFromAKnownHost(site: Site, r: Request, isFile: string -> bool)
    requires ValidMap(site.declared) && Plain(r.pathname) && ResolveSurface(site.declared, r.hostname).Some?
    requires Decide(site, r, isFile).MovedTo?
    ensures var next := Redirected(r, Decide(site, r, isFile).location);
      ResolveSurface(site.declared, next.hostname).Some? && !Decide(site, next, isFile).MovedTo?
  {
    var s := ResolveSurface(site.declared, r.hostname).value;
    var location := Decide(site, r, isFile).location;
    KnownHostRedirects(site, r, isFile);
    RuntimeIsConsistent(site.declared, r.hostname, Missing);
    Routing.RedirectsSettle(site.declared, s, r.pathname);
    KnownHostRedirects(site, Redirected(r, location), isFile);
  }

  /** Whatever a reader asks for, at most two redirects follow: one to the declared spelling of the host, one to the
      host a path belongs to. */
  lemma AtMostTwoRedirects(site: Site, r: Request, isFile: string -> bool)
    requires ValidMap(site.declared) && Plain(r.pathname) && Decide(site, r, isFile).MovedTo?
    ensures var second := Redirected(r, Decide(site, r, isFile).location);
      Decide(site, second, isFile).MovedTo? ==>
        && ResolveSurface(site.declared, r.hostname).None?
        && !Decide(site, Redirected(second, Decide(site, second, isFile).location), isFile).MovedTo?
  {
    var second := Redirected(r, Decide(site, r, isFile).location);
    if ResolveSurface(site.declared, r.hostname).Some? {
      OneRedirectFromAKnownHost(site, r, isFile);
    } else {
      CanonicalRedirectShape(site.declared, r.hostname, r.pathname);
      StrippedIsPlain(r.pathname);
      if Decide(site, second, isFile).MovedTo? {
        OneRedirectFromAKnownHost(site, second, isFile);
      }
    }
  }

  // ----- the document shell ---------------------------------------------------------------------------------------

  /** One shell for each surface, built once. Requests interleave at the read of the file, so several may miss and
      store. */
  class ShellCache {
    const build: (string, Surface) -> string
    var shells: map<Surface, string>

    ghost predicate Valid(html: string)
      reads this
    {
      forall s :: s in shells ==> shells[s] == build(html, s)
    }

    constructor (build: (string, Surface) -> string)
      ensures this.build == build && shells == map[] && forall html :: Valid(html)
    {
      this.build, shells := build, map[];
    }

    method Cached(s: Surface, ghost html: string) returns (shell: Option<string>)
      requires Valid(html)
      ensures shell.Some? <==> s in shells
      ensures shell.Some? ==> shell.value == build(html, s)
    {
      shell := if s in shells then Some(shells[s]) else None;
    }

    /** After the file was read: whatever was stored meanwhile, the shell is the fresh one and the others stay. */
    method Store(s: Surface, html: string) returns (shell: string)
      requires Valid(html)
      modifies this`shells
      ensures Valid(html) && shell == build(html, s)
      ensures shells == old(shells)[s := shell]
    {
      shell := build(html, s);
      shells := shells[s := shell];
    }

    /** What other requests do to the cache while one waits for its read. */
    method StoreMeanwhile(others: seq<Surface>, html: string)
      requires Valid(html)
      modifies this`shells
      ensures Valid(html) && old(shells).Keys <= shells.Keys
    {
      for i := 0 to |others|
        invariant Valid(html) && old(shells).Keys <= shells.Keys
      {
        var _ := Store(others[i], html);
      }
    }
  }

  // ----- the response ---------------------------------------------------------------------------------------------

  /** A response under way: the status lines written so far, and the body it was ended with. Bodies other than the
      shell are abbreviated, and a streamed file is not part of it. */
  class Response {
    var heads: seq<int>
    var location: Option<string>
    var body: Option<string>
    var ended: bool

    constructor ()
      ensures IsNew()
    {
      heads, location, body, ended := [], None, None, false;
    }

    predicate IsNew()
      reads this
    {
      heads == [] && location == None && body == None && !ended
    }

    /** Writing a head twice is an error of the caller. */
    method WriteHead(status: int)
      requires heads == []
      modifies this`heads
      ensures heads == [status]
    {
      heads := [status];
    }

    /** Ending a response that has no head sends one with status 200. */
    method End(content: Option<string>)
      modifies this
      ensures ended && heads == (if old(heads) == [] then [200] else old(heads)) && location == old(location)
      ensures body == if old(ended) then old(body) else content
    {
      if !ended {
        body := content;
      }
      ended := true;
      if heads == [] {
        heads := [200];
      }
    }
  }

  /** What may go wrong for one request: the file is gone when it is to be opened, the upstream request cannot be
      built, the document shell cannot be read. */
  datatype Faults = Faults(fileGone: bool, requestRefused: bool, shellUnreadable: bool)

  /** How far a request has come: it has its head, it threw, it waits for the API, or it waits for `index.html`. */
  datatype Outcome = Answered | Threw | AwaitingApi | AwaitingShell(surface: Surface)

  function StatusOf(d: Decision): int
    requires !d.ForwardToApi?
  {
    match d
    case HealthReply => 200
    case MovedTo(_) => 301
    case NotFound => 404
    case MethodNotAllowed => 405
    case BadRequest => 400
    case Shell(_) => 200
    case Stream(_) => 200
  }

  /** Where a request stands after its first steps, given the surfaces whose shell is held. */
  function OutcomeOf(d: Decision, f: Faults, held: set<Surface>): Outcome {
    match d
    case ForwardToApi => if f.requestRefused then Threw else AwaitingApi
    case Shell(s) => if s in held then Answered else AwaitingShell(s)
    case Stream(_) => if f.fileGone then Threw else Answered
    case _ => Answered
  }

  /** The shell a request for it is sent. */
  function ShellFor(build: (string, Surface) -> string, html: string, s: Surface, verb: string): Option<string> {
    if verb == "HEAD" then None else Some(build(html, s))
  }

  method Reply(response: Response, status: int, content: Option<string>)
    requires response.IsNew()
    modifies response
    ensures response.heads == [status] && response.ended && response.body == content && response.location == None
  {
    response.WriteHead(status);
    response.End(content);
  }

  method Move(response: Response, target: string)
    requires response.IsNew()
    modifies response
    ensures response.heads == [301] && response.ended && response.location == Some(target)
  {
    response.WriteHead(301);
    response.location := Some(target);
    response.End(None);
  }

  function LocationOf(d: Decision): Option<string> { if d.MovedTo? then Some(d.location) else None }

  /** `proxy` up to its first await: building the upstream request may throw; nothing is written yet. */
  method StartProxy(f: Faults) returns (outcome: Outcome)
    ensures outcome == OutcomeOf(ForwardToApi, f, {})
  {
    outcome := if f.requestRefused then Threw else AwaitingApi;
  }

  /** `serve`, branch by branch, up to its first await of the API or of the shell's file. A head is written only where
      none was, a throw leaves none, the status is that of the decision, and a held shell is the surface's own. */
  method Serve(
    site: Site, r: Request, isFile: string -> bool, f: Faults, cache: ShellCache, ghost html: string,
    response: Response)
    returns (outcome: Outcome)
    requires PathResolution.IsRoot(site.root) && response.IsNew() && cache.Valid(html)
    modifies response
    ensures outcome == if r.readable then OutcomeOf(Decide(site, r, isFile), f, cache.shells.Keys) else Threw
    ensures outcome.Answered? ==> response.heads == [StatusOf(Decide(site, r, isFile))] && response.ended
    ensures outcome.Answered? ==> response.location == LocationOf(Decide(site, r, isFile))
    ensures !outcome.Answered? ==> response.IsNew()
    ensures outcome.Answered? && Decide(site, r, isFile).Shell? ==>
              response.body == ShellFor(cache.build, html, Decide(site, r, isFile).surface, r.verb)
  {
    if !r.readable {
      return Threw;
    }
    var surface := ResolveSurface(site.declared, r.hostname);
    if r.pathname == "/health" {
      Reply(response, 200, Some("ok"));
      return Answered;
    }
    if surface.None? && Repeatable(r.verb) && !IsApiPath(r.pathname) {
      var canonicalHost := CanonicalHost(site.declared, r.hostname);
      if canonicalHost.Some? {
        Move(response, CanonicalLocation(canonicalHost.value, r.pathname));
        return Answered;
      }
    }
    if surface.None? {
      Reply(response, 404, Some("UNKNOWN_HOST"));
      return Answered;
    }
    var s := surface.value;
    if r.pathname == "/health/live" || r.pathname == "/health/ready" {
      outcome := StartProxy(f);
      return;
    }
    if IsApiPath(r.pathname) {
      if site.declared != [] && r.pathname != "/v1/version" && !ServesApi(s) {
        Reply(response, 404, Some("RESOURCE_NOT_FOUND"));
        return Answered;
      }
      outcome := StartProxy(f);
      return;
    }
    outcome := ServeDocument(site, s, r, isFile, f, cache, html, response);
  }

  method ServeDocument(
    site: Site, s: Surface, r: Request, isFile: string -> bool, f: Faults, cache: ShellCache, ghost html: string,
    response: Response)
    returns (outcome: Outcome)
    requires PathResolution.IsRoot(site.root) && response.IsNew() && cache.Valid(html)
    modifies response
    ensures outcome == OutcomeOf(DecideDocument(site, s, r, isFile), f, cache.shells.Keys)
    ensures outcome.Answered? ==> response.heads == [StatusOf(DecideDocument(site, s, r, isFile))] && response.ended
    ensures outcome.Answered? ==> response.location == LocationOf(DecideDocument(site, s, r, isFile))
    ensures !outcome.Answered? ==> response.IsNew()
    ensures outcome.Answered? && DecideDocument(site, s, r, isFile).Shell? ==>
              response.body == ShellFor(cache.build, html, s, r.verb)
  {
    if s.Api? {
      Reply(response, 404, Some("RESOURCE_NOT_FOUND"));
      return Answered;
    }
    var target := Routing.Redirect(site.declared, s, r.pathname);
    if target.Some? {
      Move(response, target.value);
      return Answered;
    }
    if !Repeatable(r.verb) {
      Reply(response, 405, None);
      return Answered;
    }
    if r.decoded.None? {
      Reply(response, 400, None);
      return Answered;
    }
    var found := PathResolution.Locate(site.root, r.decoded.value, isFile);
    if found.Refused? {
      Reply(response, 404, None);
      return Answered;
    }
    if found.file == PathResolution.Text(site.root + [PathResolution.INDEX]) {
      var shell := cache.Cached(s, html);
      if shell.None? {
        return AwaitingShell(s);
      }
      Reply(response, 200, if r.verb == "HEAD" then None else shell);
      return Answered;
    }
    if f.fileGone {
      return Threw;
    }
    Reply(response, 200, None);
    return Answered;
  }

  /** The rest of a request for the shell once `index.html` was read, or could not be. */
  method FinishShell(s: Surface, verb: string, f: Faults, cache: ShellCache, html: string, response: Response)
    returns (outcome: Outcome)
    requires response.IsNew() && cache.Valid(html)
    modifies response, cache`shells
    ensures cache.Valid(html)
    ensures outcome == if f.shellUnreadable then Threw else Answered
    ensures outcome.Threw? ==> response.IsNew()
    ensures outcome.Answered? ==>
              response.heads == [200] && response.ended && response.body == ShellFor(cache.build, html, s, verb)
  {
    if f.shellUnreadable {
      return Threw;
    }
    var shell := cache.Store(s, html);
    Reply(response, 200, if verb == "HEAD" then None else Some(shell));
    return Answered;
  }

  /** What the API connection reports after the request was sent. */
  datatype UpstreamEvent = Responded(status: int) | Failed

  /** The handlers `proxy` leaves behind, over the events in any order. A response without a status is a 502. A
      response after another event writes a second head, which Node refuses with an exception that nobody catches:
      the head on the wire stays one, and the process ends. */
  method Upstream(events: seq<UpstreamEvent>, response: Response) returns (crashed: bool)
    requires response.IsNew()
    modifies response
    ensures response.heads == if events == [] then [] else [HeadFor(events[0])]
    ensures crashed <==> !RespondsFirst(events)
  {
    crashed := false;
    for i := 0 to |events|
      invariant response.heads == if i == 0 then [] else [HeadFor(events[0])]
      invariant !crashed && RespondsFirst(events[..i])
    {
      assert events[..i + 1] == events[..i] + [events[i]];
      match events[i] {
        case Responded(status) =>
          if response.heads != [] {
            assert i >= 1;
            return true;
          }
          response.WriteHead(HeadFor(events[i]));
        case Failed =>
          if response.heads == [] {
            response.WriteHead(502);
          }
          response.End(Some("UPSTREAM_UNAVAILABLE"));
      }
    }
    assert events[..|events|] == events;
  }

  function HeadFor(e: UpstreamEvent): int {
    match e
    case Responded(status) => if status == 0 then 502 else status
    case Failed => 502
  }

  /** A response, when there is one, is the first event. */
  predicate RespondsFirst(events: seq<UpstreamEvent>) {
    forall i :: 1 <= i < |events| ==> !events[i].Responded?
  }

  /** How many heads the handlers would write if nothing stopped them. */
  function HeadsWritten(events: seq<UpstreamEvent>, sent: bool): nat {
    if events == [] then 0
    else (if events[0].Responded? || !sent then 1 else 0) + HeadsWritten(events[1..], true)
  }

  /** Never two heads, exactly when a response can only be the first event: a second response, or one after a
      failure, is what the response handler does not guard against. */
  lemma OneHeadExactlyWhenRespondingFirst(events: seq<UpstreamEvent>)
    ensures HeadsWritten(events, false) <= 1 <==> RespondsFirst(events)
    ensures events != [] ==> HeadsWritten(events, false) >= 1
  {
    if events != [] {
      var rest := events[1..];
      NoMoreHeads(rest);
      assert RespondsFirst(events) <==> forall i :: 0 <= i < |rest| ==> !rest[i].Responded? by {
        forall i | 1 <= i < |events| ensures events[i] == rest[i - 1] {}
        forall i | 0 <= i < |rest| ensures rest[i] == events[i + 1] {}
      }
    }
  }

  lemma {:induction false} NoMoreHeads(events: seq<UpstreamEvent>)
    ensures HeadsWritten(events, true) == 0 <==> forall i :: 0 <= i < |events| ==> !events[i].Responded?
  {
    if events == [] {
    } else {
      var rest := events[1..];
      NoMoreHeads(rest);
      forall i | 1 <= i < |events| ensures events[i] == rest[i - 1] {}
      forall i | 0 <= i < |rest| ensures rest[i] == events[i + 1] {}
    }
  }

  /** The status of the whole request, once everything about it is known. */
  function Answer(
    site: Site, r: Request, isFile: string -> bool, f: Faults, held: set<Surface>, events: seq<UpstreamEvent>)
    : Option<int>
  {
    if !r.readable then Some(500)
    else
      match OutcomeOf(Decide(site, r, isFile), f, held)
      case Threw => Some(500)
      case Answered => Some(StatusOf(Decide(site, r, isFile)))
      case AwaitingShell(_) => Some(if f.shellUnreadable then 500 else 200)
      case AwaitingApi => if events == [] then None else Some(HeadFor(events[0]))
  }

  /** The status lines that are nobody's decision: 500 for a URL that cannot be read, an upstream request that cannot be
      built, a shell or a file that cannot be read; for a forwarded request the API's own status, and 502 where the API
      fails first or states none. */
  lemma FaultsInNumbers(
    site: Site, r: Request, isFile: string -> bool, f: Faults, held: set<Surface>, events: seq<UpstreamEvent>)
    ensures var answer := Answer(site, r, isFile, f, held, events);
      var d := Decide(site, r, isFile);
      && (!r.readable ==> answer == Some(500))
      && (r.readable ==>
            match d
            case ForwardToApi =>
              if f.requestRefused then answer == Some(500)
              else if events == [] then answer == None
              else if events[0] == Failed || events[0] == Responded(0) then answer == Some(502)
              else answer == Some(events[0].status)
            case Shell(s) => answer == Some(if s !in held && f.shellUnreadable then 500 else 200)
            case Stream(_) => answer == Some(if f.fileGone then 500 else 200)
            case _ => answer == Some(StatusOf(d)))
  {}

  predicate Forwarded(site: Site, r: Request, isFile: string -> bool, f: Faults) {
    r.readable && Decide(site, r, isFile).ForwardToApi? && !f.requestRefused
  }

  /** The last resort around `serve`. */
  method Recover(response: Response)
    requires response.IsNew()
    modifies response
    ensures response.heads == [500] && response.ended
  {
    if response.heads == [] {
      response.WriteHead(500);
    }
    response.End(None);
  }

  /** One request from its arrival to its end, while other requests store shells and the API reports in any order:
      exactly one status line, none only while the API has neither answered nor failed, and a shell that is sent is
      the one built for the surface. */
  method Handle(
    site: Site, r: Request, isFile: string -> bool, f: Faults, cache: ShellCache, html: string, others: seq<Surface>,
    events: seq<UpstreamEvent>)
    returns (response: Response, crashed: bool)
    requires PathResolution.IsRoot(site.root) && cache.Valid(html)
    modifies cache`shells
    ensures fresh(response) && cache.Valid(html)
    ensures response.heads ==
            match Answer(site, r, isFile, f, old(cache.shells.Keys), events)
            case None => []
            case Some(status) => [status]
    ensures crashed <==> Forwarded(site, r, isFile, f) && !RespondsFirst(events)
    ensures r.readable && Decide(site, r, isFile).MovedTo? ==>
              response.location == Some(Decide(site, r, isFile).location)
    ensures r.readable && Decide(site, r, isFile).Shell? && response.heads == [200] ==>
              response.body ==
              if r.verb == "HEAD" then None else Some(cache.build(html, Decide(site, r, isFile).surface))
  {
    response := new Response();
    crashed := false;
    var outcome := Serve(site, r, isFile, f, cache, html, response);
    if outcome.AwaitingShell? {
      cache.StoreMeanwhile(others, html);
      outcome := FinishShell(outcome.surface, r.verb, f, cache, html, response);
    }
    if outcome.Threw? {
      Recover(response);
    } else if outcome.AwaitingApi? {
      crashed := Upstream(events, response);
    }
  }
}
