/** Paths as text: `split('/')`, `filter(Boolean)`, `join('/')`, and the parts of an address. Percent-encoding and
    the normalisation a browser applies to dot segments and backslashes are not modelled. */
module Segments {

  predicate SlashFree(s: string) { '/' !in s }

  /** A path segment: not empty and without a slash. */
  predicate IsSegment(s: string) { s != "" && SlashFree(s) }

  predicate AllSegments(parts: seq<string>) { forall p :: p in parts ==> IsSegment(p) }

  /** `s.split('/')`. */
  function Split(s: string): (parts: seq<string>)
    ensures |parts| >= 1
  {
    if s == "" then [""]
    else
      var rest := Split(s[1..]);
      if s[0] == '/' then [""] + rest else [[s[0]] + rest[0]] + rest[1..]
  }

  /** `parts.filter(Boolean)` on strings. */
  function NonEmpty(parts: seq<string>): seq<string> {
    if parts == [] then []
    else if parts[0] == "" then NonEmpty(parts[1..])
    else [parts[0]] + NonEmpty(parts[1..])
  }

  function Of(path: string): seq<string> { NonEmpty(Split(path)) }

  /** `parts.join('/')`. */
  function Join(parts: seq<string>): string {
    if parts == [] then "" else if |parts| == 1 then parts[0] else parts[0] + "/" + Join(parts[1..])
  }

  lemma {:induction false} SplitAtSlash(x: string, y: string)
    ensures Split(x + "/" + y) == Split(x) + Split(y)
  {
    var whole := x + "/" + y;
    if x == "" {
      assert whole[1..] == y;
    } else {
      assert whole[1..] == x[1..] + "/" + y;
      SplitAtSlash(x[1..], y);
    }
  }

  lemma {:induction false} NonEmptyConcat(a: seq<string>, b: seq<string>)
    ensures NonEmpty(a + b) == NonEmpty(a) + NonEmpty(b)
  {
    if a == [] {
      assert a + b == b;
    } else {
      assert (a + b)[1..] == a[1..] + b;
      NonEmptyConcat(a[1..], b);
    }
  }

  /** A slash separates segments, and nothing else does. */
  lemma SlashSeparates(x: string, y: string)
    ensures Of(x + "/" + y) == Of(x) + Of(y)
  {
    SplitAtSlash(x, y);
    NonEmptyConcat(Split(x), Split(y));
  }

  lemma {:induction false} SplitSlashFree(s: string)
    requires SlashFree(s)
    ensures Split(s) == [s]
  {
    if s == "" {
    } else {
      SplitSlashFree(s[1..]);
      assert [s[0]] + s[1..] == s;
    }
  }

  lemma OneSegment(s: string)
    requires SlashFree(s)
    ensures Of(s) == if s == "" then [] else [s]
  {
    SplitSlashFree(s);
    assert [s][1..] == [];
    assert NonEmpty([]) == [];
    assert NonEmpty([s]) == if s == "" then [] else [s] + NonEmpty([s][1..]);
  }

  /** A leading slash, or a leading segment, in front of more path. */
  lemma LeadingSlash(s: string)
    ensures Of("/" + s) == Of(s)
  {
    SlashSeparates("", s);
    assert "" + "/" + s == "/" + s;
  }

  lemma {:induction false} SplitPieces(s: string)
    ensures forall p :: p in Split(s) ==> SlashFree(p)
    ensures forall p, c :: p in Split(s) && c in p ==> c in s
  {
    if s == "" {
    } else {
      SplitPieces(s[1..]);
      var rest := Split(s[1..]);
      assert rest[0] in rest && s[0] in s;
      assert forall p :: p in rest[1..] ==> p in rest;
      assert forall c :: c in s[1..] ==> c in s;
      assert forall p :: p in Split(s) ==> p == "" || p == [s[0]] + rest[0] || p in rest;
    }
  }

  lemma {:induction false} NonEmptyPieces(parts: seq<string>)
    ensures forall p :: p in NonEmpty(parts) <==> p in parts && p != ""
  {
    if parts == [] {
    } else {
      NonEmptyPieces(parts[1..]);
    }
  }

  /** Every piece of a split path is a segment made of the path's own characters. */
  lemma PiecesAreSegments(path: string)
    ensures AllSegments(Of(path))
    ensures forall p, c :: p in Of(path) && c in p ==> c in path
  {
    SplitPieces(path);
    NonEmptyPieces(Split(path));
  }

  /** Joining segments and splitting again gives the segments back. */
  lemma {:induction false} SplitUndoesJoin(parts: seq<string>)
    requires AllSegments(parts)
    ensures Of(Join(parts)) == parts
    ensures Join(parts) == "" <==> parts == []
    ensures Join(parts) != "" ==> Join(parts)[0] != '/'
  {
    if parts == [] {
    } else {
      assert IsSegment(parts[0]) by { assert parts[0] in parts; }
      OneSegment(parts[0]);
      assert parts[0][0] in parts[0];
      if |parts| > 1 {
        assert forall p :: p in parts[1..] ==> p in parts;
        SlashSeparates(parts[0], Join(parts[1..]));
        SplitUndoesJoin(parts[1..]);
      }
    }
  }

  /** `s.replace(/^\//, '')`: at most one leading slash goes. */
  function StripSlash(s: string): string {
    if s != "" && s[0] == '/' then s[1..] else s
  }

  /** `s.replace(/^\/+/, '')`: every leading slash goes. */
  function StripSlashes(s: string): (stripped: string)
    ensures stripped != "" ==> stripped[0] != '/'
  {
    if s != "" && s[0] == '/' then StripSlashes(s[1..]) else s
  }

  lemma StripSlashKeepsSegments(s: string)
    ensures Of(StripSlash(s)) == Of(s)
  {
    if s != "" && s[0] == '/' {
      LeadingSlash(s[1..]);
      assert "/" + s[1..] == s;
    }
  }

  // ----- the parts of an address, as section 3 of RFC 3986 delimits them -----------------------------------------

  const SCHEME := "https://"

  predicate EndsAuthority(c: char) { c == '/' || c == '?' || c == '#' }

  predicate EndsPath(c: char) { c == '?' || c == '#' }

  /** Free of the characters that would start a query or a fragment. */
  predicate Plain(s: string) { '?' !in s && '#' !in s }

  /** A host as it may stand in an authority. */
  predicate IsHost(s: string) { IsSegment(s) && Plain(s) }

  function Authority(s: string): string {
    if s == "" || EndsAuthority(s[0]) then "" else [s[0]] + Authority(s[1..])
  }

  function UpToQuery(s: string): string {
    if s == "" || EndsPath(s[0]) then "" else [s[0]] + UpToQuery(s[1..])
  }

  /** The host an address names, if it names one. */
  function HostOf(href: string): (host: string) {
    if SCHEME <= href then Authority(href[|SCHEME|..]) else ""
  }

  /** The pathname of an address. */
  function PathnameOf(href: string): string {
    if SCHEME <= href then
      var after := href[|SCHEME|..];
      AuthorityIsPrefix(after);
      UpToQuery(after[|Authority(after)|..])
    else UpToQuery(href)
  }

  lemma {:induction false} AuthorityIsPrefix(s: string)
    ensures Authority(s) <= s
  {
    if s != "" && !EndsAuthority(s[0]) {
      AuthorityIsPrefix(s[1..]);
    }
  }

  lemma {:induction false} AuthorityStops(host: string, rest: string)
    requires SlashFree(host) && Plain(host)
    requires rest == "" || rest[0] == '/'
    ensures Authority(host + rest) == host
  {
    if host == "" {
      assert host + rest == rest;
    } else {
      assert (host + rest)[1..] == host[1..] + rest;
      AuthorityStops(host[1..], rest);
      assert [host[0]] + host[1..] == host;
    }
  }

  lemma {:induction false} PlainPathIsWhole(s: string)
    requires Plain(s)
    ensures UpToQuery(s) == s
  {
    if s == "" {
    } else {
      PlainPathIsWhole(s[1..]);
      assert [s[0]] + s[1..] == s;
    }
  }

  /** An absolute address splits into the host and the path it was made of. */
  lemma AbsoluteAddress(host: string, path: string)
    requires IsHost(host) && Plain(path) && (path == "" || path[0] == '/')
    ensures HostOf(SCHEME + host + path) == host
    ensures PathnameOf(SCHEME + host + path) == path
  {
    var href := SCHEME + host + path;
    assert SCHEME <= href && href[|SCHEME|..] == host + path;
    AuthorityStops(host, path);
    assert (host + path)[|host|..] == path;
    PlainPathIsWhole(path);
  }

  lemma RelativeAddress(path: string)
    requires Plain(path) && path != "" && path[0] == '/'
    ensures HostOf(path) == "" && PathnameOf(path) == path
  {
    assert SCHEME[0] == 'h';
    PlainPathIsWhole(path);
  }
}
