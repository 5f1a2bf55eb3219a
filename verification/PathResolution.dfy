/** From a decoded request path to the file that is opened. An absolute path is `/` and its segments; the root is
    already resolved and is not `/`. */
module PathResolution {
  import opened Segments

  function Text(parts: seq<string>): string { "/" + Join(parts) }

  predicate IsDots(s: string) { s == "." || s == ".." }

  predicate Dotless(parts: seq<string>) { forall p :: p in parts ==> IsSegment(p) && !IsDots(p) }

  /** A resolved directory below `/`. */
  predicate IsRoot(root: seq<string>) { root != [] && Dotless(root) }

  // ----- `path.resolve` -------------------------------------------------------------------------------------------

  function Init<T>(s: seq<T>): seq<T> { if s == [] then [] else s[..|s| - 1] }

  /** Where a walk along segments ends: `.` stays, `..` goes up and stays at `/`. */
  function WalkFrom(place: seq<string>, segments: seq<string>): seq<string>
    decreases |segments|
  {
    if segments == [] then place
    else if segments[0] == "." then WalkFrom(place, segments[1..])
    else if segments[0] == ".." then WalkFrom(Init(place), segments[1..])
    else WalkFrom(place + [segments[0]], segments[1..])
  }

  lemma {:induction false} WalkAppends(place: seq<string>, a: seq<string>, b: seq<string>)
    ensures WalkFrom(place, a + b) == WalkFrom(WalkFrom(place, a), b)
    decreases |a|
  {
    if a == [] {
      assert a + b == b;
    } else {
      assert (a + b)[1..] == a[1..] + b;
      WalkAppends(if a[0] == "." then place else if a[0] == ".." then Init(place) else place + [a[0]], a[1..], b);
    }
  }

  lemma {:induction false} WalkStaysDotless(place: seq<string>, segments: seq<string>)
    requires Dotless(place) && AllSegments(segments)
    ensures Dotless(WalkFrom(place, segments))
    decreases |segments|
  {
    if segments == [] {
    } else {
      assert segments[0] in segments;
      assert forall p :: p in segments[1..] ==> p in segments;
      assert forall p :: p in Init(place) ==> p in place;
      WalkStaysDotless(if segments[0] == "." then place else if segments[0] == ".." then Init(place)
                       else place + [segments[0]], segments[1..]);
    }
  }

  /** `resolve(root, relative)` as a stack of segments. */
  method Resolve(root: seq<string>, relative: string) returns (place: seq<string>)
    ensures place == WalkFrom(root, Of(relative))
  {
    var segments := Of(relative);
    place := root;
    for i := 0 to |segments|
      invariant place == WalkFrom(root, segments[..i])
    {
      ghost var was := place;
      if segments[i] == ".." {
        place := Init(place);
      } else if segments[i] != "." {
        place := place + [segments[i]];
      }
      assert segments[..i + 1] == segments[..i] + [segments[i]];
      WalkAppends(root, segments[..i], [segments[i]]);
      assert [segments[i]][1..] == [];
      assert place == WalkFrom(was, [segments[i]]);
    }
    assert segments[..|segments|] == segments;
  }

  // ----- the check on the text ------------------------------------------------------------------------------------

  lemma TextComesApart(parts: seq<string>)
    requires AllSegments(parts)
    ensures Of(Text(parts)) == parts
  {
    SplitUndoesJoin(parts);
    LeadingSlash(Join(parts));
  }

  lemma {:induction false} JoinAppends(a: seq<string>, b: seq<string>)
    requires a != [] && b != []
    ensures Join(a + b) == Join(a) + "/" + Join(b)
  {
    if |a| == 1 {
      assert (a + b)[1..] == b;
    } else {
      assert (a + b)[1..] == a[1..] + b;
      JoinAppends(a[1..], b);
      assert Join(a + b) == a[0] + "/" + (Join(a[1..]) + "/" + Join(b));
    }
  }

  predicate IsBelow(root: seq<string>, place: seq<string>) { root < place }

  /** The text check means what it should: a place passes exactly when it is the root or below it. A sibling whose
      name merely starts like the root's does not pass. */
  lemma TextCheckIsExact(root: seq<string>, place: seq<string>)
    requires IsRoot(root) && Dotless(place)
    ensures Text(place) == Text(root) <==> place == root
    ensures Text(root) + "/" <= Text(place) <==> IsBelow(root, place)
  {
    TextComesApart(root);
    TextComesApart(place);
    if Text(root) + "/" <= Text(place) {
      var rest := Text(place)[|Text(root)| + 1..];
      assert Text(place) == Text(root) + "/" + rest;
      SlashSeparates(Text(root), rest);
      assert place == root + Of(rest);
    }
    if IsBelow(root, place) {
      var rest := place[|root|..];
      assert place == root + rest;
      JoinAppends(root, rest);
      assert Text(place) == Text(root) + "/" + Join(rest);
    }
  }

  // ----- the file -------------------------------------------------------------------------------------------------

  /** What becomes of a path: refused, or the file that is opened. */
  datatype Found = Refused | Opened(file: string)

  const INDEX := "index.html"

  /** The place a decoded pathname names. */
  function PlaceOf(root: seq<string>, decoded: string): seq<string> {
    WalkFrom(root, Of(if StripSlashes(decoded) == "" then INDEX else StripSlashes(decoded)))
  }

  /** What is opened: the place a path names when it lies below the root and is a file, else the document shell. */
  function Location(root: seq<string>, decoded: string, isFile: string -> bool): Found {
    var place := PlaceOf(root, decoded);
    if !(root <= place) then Refused else Opened(if isFile(Text(place)) then Text(place) else Text(root + [INDEX]))
  }

  /** `stat` is asked once; anything that is not a file is answered with the document shell. */
  method Locate(root: seq<string>, decoded: string, isFile: string -> bool) returns (found: Found)
    requires IsRoot(root)
    ensures found == Location(root, decoded, isFile)
  {
    var relative := StripSlashes(decoded);
    var place := Resolve(root, if relative == "" then INDEX else relative);
    IndexIsSegment();
    PiecesAreSegments(if relative == "" then INDEX else relative);
    WalkStaysDotless(root, Of(if relative == "" then INDEX else relative));
    TextCheckIsExact(root, place);
    var file := Text(place);
    if file != Text(root) && !(Text(root) + "/" <= file) {
      return Refused;
    }
    if !isFile(file) {
      var index := Resolve(root, INDEX);
      file := Text(index);
    }
    return Opened(file);
  }

  lemma IndexIsSegment()
    ensures Of(INDEX) == [INDEX] && IsSegment(INDEX)
    ensures forall root :: WalkFrom(root, [INDEX]) == root + [INDEX]
  {
    assert forall k :: 0 <= k < |INDEX| ==> INDEX[k] != '/';
    OneSegment(INDEX);
    assert [INDEX][1..] == [];
  }

  /** Whatever the path, the file opened lies strictly below the root: it is the root's text, a slash, and a
      non-empty rest without dot segments. */
  lemma OpenedIsBelowRoot(root: seq<string>, decoded: string, isFile: string -> bool)
    requires IsRoot(root) && !isFile(Text(root))
    ensures var found := Location(root, decoded, isFile);
      found.Opened? ==>
        exists place :: found.file == Text(place) && IsBelow(root, place) && Dotless(place)
                        && Text(root) + "/" <= found.file
  {
    var found := Location(root, decoded, isFile);
    if found.Opened? {
      IndexIsSegment();
      var place := if isFile(Text(PlaceOf(root, decoded))) then PlaceOf(root, decoded) else root + [INDEX];
      var relative := if StripSlashes(decoded) == "" then INDEX else StripSlashes(decoded);
      PiecesAreSegments(relative);
      WalkStaysDotless(root, Of(relative));
      TextCheckIsExact(root, place);
      assert found.file == Text(place) && IsBelow(root, place);
    }
  }

  // ----- which paths are refused ----------------------------------------------------------------------------------

  /** A relative path without detours: some steps up, then names. */
  datatype Normal = Normal(up: nat, names: seq<string>)

  function NormalFrom(n: Normal, segments: seq<string>): Normal
    decreases |segments|
  {
    if segments == [] then n
    else if segments[0] == "." then NormalFrom(n, segments[1..])
    else if segments[0] == ".." then
      NormalFrom(if n.names == [] then Normal(n.up + 1, []) else Normal(n.up, Init(n.names)), segments[1..])
    else NormalFrom(Normal(n.up, n.names + [segments[0]]), segments[1..])
  }

  function NormalForm(segments: seq<string>): Normal { NormalFrom(Normal(0, []), segments) }

  /** How many directories of the root a path leaves: there is nothing above `/` to leave. */
  function Left(root: seq<string>, n: Normal): nat { if n.up <= |root| then n.up else |root| }

  function Applied(root: seq<string>, n: Normal): seq<string> { root[..|root| - Left(root, n)] + n.names }

  lemma {:induction false} WalkIsNormal(root: seq<string>, n: Normal, segments: seq<string>)
    ensures WalkFrom(Applied(root, n), segments) == Applied(root, NormalFrom(n, segments))
    decreases |segments|
  {
    if segments == [] {
    } else {
      var place, kept := Applied(root, n), root[..|root| - Left(root, n)];
      if segments[0] == "." {
        WalkIsNormal(root, n, segments[1..]);
      } else if segments[0] == ".." && n.names == [] {
        var higher := Normal(n.up + 1, []);
        assert Init(place) == Applied(root, higher);
        WalkIsNormal(root, higher, segments[1..]);
      } else if segments[0] == ".." {
        assert Init(place) == kept + Init(n.names);
        WalkIsNormal(root, Normal(n.up, Init(n.names)), segments[1..]);
      } else {
        assert place + [segments[0]] == kept + (n.names + [segments[0]]);
        WalkIsNormal(root, Normal(n.up, n.names + [segments[0]]), segments[1..]);
      }
    }
  }

  /** A path is refused exactly when it leaves directories of the root and its remaining names do not start by naming
      those directories again. Climbing above the root is not enough. */
  lemma RefusedExactly(root: seq<string>, decoded: string, isFile: string -> bool)
    requires IsRoot(root)
    ensures var n := NormalForm(Of(decoded));
      Location(root, decoded, isFile).Refused? <==> !(root[|root| - Left(root, n)..] <= n.names)
  {
    StrippedKeepsSegments(decoded);
    if StripSlashes(decoded) == "" {
      EmptyPathIsIndex(root, decoded);
    } else {
      var n := NormalForm(Of(decoded));
      PlaceIsNormal(root, decoded);
      PrefixAfterCut(root, |root| - Left(root, n), n.names);
    }
  }

  lemma EmptyPathIsIndex(root: seq<string>, decoded: string)
    requires StripSlashes(decoded) == ""
    ensures root <= PlaceOf(root, decoded) && root[|root|..] == []
  {
    IndexIsSegment();
    assert root <= root + [INDEX];
  }

  lemma PlaceIsNormal(root: seq<string>, decoded: string)
    requires StripSlashes(decoded) != ""
    ensures PlaceOf(root, decoded) == Applied(root, NormalForm(Of(decoded)))
  {
    StrippedKeepsSegments(decoded);
    assert Applied(root, Normal(0, [])) == root;
    WalkIsNormal(root, Normal(0, []), Of(decoded));
  }

  lemma PrefixAfterCut(root: seq<string>, kept: nat, names: seq<string>)
    requires kept <= |root|
    ensures root <= root[..kept] + names <==> root[kept..] <= names
  {
    var place := root[..kept] + names;
    if root <= place {
      assert forall i :: kept <= i < |root| ==> root[i] == place[i] == names[i - kept];
    }
    if root[kept..] <= names {
      assert forall i :: kept <= i < |root| ==> root[i] == root[kept..][i - kept] == place[i];
    }
  }

  /** Some `..` goes above the starting place. */
  predicate Climbs(depth: nat, segments: seq<string>)
    decreases |segments|
  {
    segments != [] &&
    if segments[0] == "." then Climbs(depth, segments[1..])
    else if segments[0] == ".." then depth == 0 || Climbs(depth - 1, segments[1..])
    else Climbs(depth + 1, segments[1..])
  }

  lemma {:induction false} UpNeverFalls(n: Normal, segments: seq<string>)
    ensures NormalFrom(n, segments).up >= n.up
    decreases |segments|
  {
    if segments == [] {
    } else {
      if segments[0] == "." {
        UpNeverFalls(n, segments[1..]);
      } else if segments[0] == ".." {
        UpNeverFalls(if n.names == [] then Normal(n.up + 1, []) else Normal(n.up, Init(n.names)), segments[1..]);
      } else {
        UpNeverFalls(Normal(n.up, n.names + [segments[0]]), segments[1..]);
      }
    }
  }

  lemma {:induction false} ClimbingIsUp(names: seq<string>, segments: seq<string>)
    ensures Climbs(|names|, segments) <==> NormalFrom(Normal(0, names), segments).up > 0
    decreases |segments|
  {
    if segments == [] {
    } else {
      if segments[0] == "." {
        ClimbingIsUp(names, segments[1..]);
      } else if segments[0] == ".." && names == [] {
        UpNeverFalls(Normal(1, []), segments[1..]);
      } else if segments[0] == ".." {
        ClimbingIsUp(Init(names), segments[1..]);
      } else {
        ClimbingIsUp(names + [segments[0]], segments[1..]);
      }
    }
  }

  /** A path whose `..` never climb above the root is never refused. */
  lemma UnclimbingPathIsNeverRefused(root: seq<string>, decoded: string, isFile: string -> bool)
    requires IsRoot(root) && !Climbs(0, Of(decoded))
    ensures Location(root, decoded, isFile).Opened?
  {
    ClimbingIsUp([], Of(decoded));
    RefusedExactly(root, decoded, isFile);
    assert root[|root|..] == [];
  }

  /** What a path names below the root, when it is not refused: its names, less the directories of the root it left and
      named again. */
  function NamedBelow(root: seq<string>, n: Normal): seq<string> {
    if Left(root, n) <= |n.names| then n.names[Left(root, n)..] else []
  }

  /** The file asked for is the file opened. A path that is not refused opens exactly the file it names below the root
      when there is one, and the document shell when there is none or when it names the root itself. */
  lemma FileAskedForIsOpened(root: seq<string>, decoded: string, isFile: string -> bool)
    requires IsRoot(root) && !isFile(Text(root))
    ensures var n := NormalForm(Of(decoded));
      var below := NamedBelow(root, n);
      root[|root| - Left(root, n)..] <= n.names ==>
        Location(root, decoded, isFile) ==
        Opened(if below != [] && isFile(Text(root + below)) then Text(root + below) else Text(root + [INDEX]))
  {
    var n := NormalForm(Of(decoded));
    RefusedExactly(root, decoded, isFile);
    if root[|root| - Left(root, n)..] <= n.names {
      PlaceIsNamedBelow(root, decoded);
      var below := NamedBelow(root, n);
      assert root + [] == root && root <= root + below && root <= root + [INDEX];
    }
  }

  lemma PlaceIsNamedBelow(root: seq<string>, decoded: string)
    requires var n := NormalForm(Of(decoded)); root[|root| - Left(root, n)..] <= n.names
    ensures var below := NamedBelow(root, NormalForm(Of(decoded)));
      PlaceOf(root, decoded) == root + (if StripSlashes(decoded) == "" then [INDEX] else below)
      && (StripSlashes(decoded) == "" ==> below == [])
  {
    var n := NormalForm(Of(decoded));
    var left := Left(root, n);
    StrippedKeepsSegments(decoded);
    if StripSlashes(decoded) == "" {
      IndexIsSegment();
    } else {
      PlaceIsNormal(root, decoded);
      assert n.names == root[|root| - left..] + n.names[left..];
      assert root == root[..|root| - left] + root[|root| - left..];
    }
  }

  /** In particular a path that never climbs opens the file of its own names. */
  lemma UnclimbingPathOpensItsFile(root: seq<string>, decoded: string, isFile: string -> bool)
    requires IsRoot(root) && !isFile(Text(root)) && !Climbs(0, Of(decoded))
    ensures var names := NormalForm(Of(decoded)).names;
      Location(root, decoded, isFile) ==
      Opened(if names != [] && isFile(Text(root + names)) then Text(root + names) else Text(root + [INDEX]))
  {
    ClimbingIsUp([], Of(decoded));
    FileAskedForIsOpened(root, decoded, isFile);
    var n := NormalForm(Of(decoded));
    assert root[|root|..] == [] && n.names[0..] == n.names;
  }

  /** A path of plain names is its own normal form. */
  lemma {:induction false} PlainNamesAreNormal(names: seq<string>, before: seq<string>)
    requires forall p :: p in names ==> !IsDots(p)
    ensures NormalFrom(Normal(0, before), names) == Normal(0, before + names)
    decreases |names|
  {
    if names == [] {
      assert before + names == before;
    } else {
      assert names[0] in names && forall p :: p in names[1..] ==> p in names;
      PlainNamesAreNormal(names[1..], before + [names[0]]);
      assert before + [names[0]] + names[1..] == before + names;
    }
  }

  lemma {:induction false} StrippedKeepsSegments(s: string)
    ensures Of(StripSlashes(s)) == Of(s)
  {
    if s != "" && s[0] == '/' {
      StrippedKeepsSegments(s[1..]);
      LeadingSlash(s[1..]);
      assert "/" + s[1..] == s;
    }
  }
}
