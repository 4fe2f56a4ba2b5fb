/** Splitting, recomposing and resolving URI references (RFC 3986 sections 5.2 and 5.3, appendix B). */
module UrlReference {
  import opened Options
  import opened UrlText
  import opened UrlDotSegments

  /** The five components of a reference; an absent component is not an empty one. */
  datatype Parts = Parts(scheme: Option<string>, authority: Option<string>, path: string,
                         query: Option<string>, fragment: Option<string>)

  predicate IsAlpha(c: char) {
    'A' <= c <= 'Z' || 'a' <= c <= 'z'
  }

  predicate IsSchemeChar(c: char) {
    IsAlpha(c) || '0' <= c <= '9' || c == '+' || c == '.' || c == '-'
  }

  /** The length of the longest prefix of scheme characters. */
  function SchemeRun(s: string): (n: nat)
    ensures n <= |s| && (forall i :: 0 <= i < n ==> IsSchemeChar(s[i])) && (n < |s| ==> !IsSchemeChar(s[n]))
  {
    if s == "" || !IsSchemeChar(s[0]) then 0 else 1 + SchemeRun(s[1..])
  }

  /** Whether the text starts with a letter, more scheme characters and a colon. */
  predicate StartsWithScheme(s: string) {
    s != "" && IsAlpha(s[0]) && SchemeRun(s) < |s| && s[SchemeRun(s)] == ':'
  }

  predicate IsScheme(s: string) {
    s != "" && IsAlpha(s[0]) && SchemeRun(s) == |s|
  }

  /** The text before the first c, and the text after it when there is one. */
  function Cut(s: string, c: char): (string, Option<string>) {
    var n := First(s, c);
    (s[..n], if n < |s| then Some(s[n + 1..]) else None)
  }

  function Uncut(before: string, c: char, after: Option<string>): string {
    if after.Some? then before + [c] + after.value else before
  }

  lemma UncutOfCut(s: string, c: char)
    ensures var (before, after) := Cut(s, c); Uncut(before, c, after) == s && c !in before
  {
    var n := First(s, c);
    assert n < |s| ==> s == s[..n] + [c] + s[n + 1..];
  }

  lemma CutOfUncut(before: string, c: char, after: Option<string>)
    requires c !in before
    ensures Cut(Uncut(before, c, after), c) == (before, after)
  {
    var s := Uncut(before, c, after);
    assert s[..|before|] == before;
    FirstIs(s, c, |before|);
  }

  function SplitAuthority(rest: string): (Option<string>, string) {
    if "//" <= rest then
      var after := rest[2..];
      var end := First(after, '/');
      (Some(after[..end]), after[end..])
    else (None, rest)
  }

  /** Scheme and authority come off the text that precedes query and fragment. */
  function SplitHierarchy(rest: string): (Option<string>, Option<string>, string) {
    var (scheme, rest) :=
      if StartsWithScheme(rest) then (Some(rest[..SchemeRun(rest)]), rest[SchemeRun(rest) + 1..]) else (None, rest);
    var (authority, path) := SplitAuthority(rest);
    (scheme, authority, path)
  }

  function SplitReference(value: string): Parts {
    var (rest, fragment) := Cut(value, '#');
    var (rest, query) := Cut(rest, '?');
    var (scheme, authority, path) := SplitHierarchy(rest);
    Parts(scheme, authority, path, query, fragment)
  }

  function JoinHierarchy(scheme: Option<string>, authority: Option<string>, path: string): string {
    (if scheme.Some? then scheme.value + ":" else "") + ((if authority.Some? then "//" + authority.value else "") + path)
  }

  function Recompose(p: Parts): string {
    Uncut(Uncut(JoinHierarchy(p.scheme, p.authority, p.path), '?', p.query), '#', p.fragment)
  }

  // ----- Round trips -----

  /** Splitting loses nothing: every text is the recomposition of its parts. */
  lemma RecomposeOfSplit(value: string)
    ensures Recompose(SplitReference(value)) == value
  {
    UncutOfCut(value, '#');
    var (rest, _) := Cut(value, '#');
    UncutOfCut(rest, '?');
    var (hierarchy, _) := Cut(rest, '?');
    JoinOfSplitHierarchy(hierarchy);
  }

  lemma JoinOfSplitHierarchy(text: string)
    ensures var (scheme, authority, path) := SplitHierarchy(text); JoinHierarchy(scheme, authority, path) == text
  {
    var n := SchemeRun(text);
    var rest := if StartsWithScheme(text) then text[n + 1..] else text;
    assert StartsWithScheme(text) ==> text == text[..n] + ":" + rest;
    JoinOfSplitAuthority(rest);
  }

  lemma JoinOfSplitAuthority(rest: string)
    ensures "//" <= rest ==> rest == "//" + rest[2..][..First(rest[2..], '/')] + rest[2..][First(rest[2..], '/')..]
  {
  }

  /** The parts a recomposed text splits back into unchanged, stated part by part. */
  predicate WellFormed(p: Parts) {
    && (p.scheme.Some? ==> IsScheme(p.scheme.value))
    && (p.authority.Some? ==>
          && '/' !in p.authority.value && '?' !in p.authority.value && '#' !in p.authority.value
          && (p.path == "" || p.path[0] == '/'))
    && (p.authority.None? ==> !("//" <= p.path))
    && (p.authority.None? && p.scheme.None? ==> !StartsWithScheme(p.path))
    && '?' !in p.path && '#' !in p.path
    && (p.query.Some? ==> '#' !in p.query.value)
  }

  /** Splitting always gives well-formed parts. */
  lemma SplitIsWellFormed(value: string)
    ensures WellFormed(SplitReference(value))
  {
    CutAbsent(value, '#', '#');
    var (rest, _) := Cut(value, '#');
    CutAbsent(rest, '?', '#');
    CutAbsent(rest, '?', '?');
    HierarchyIsWellFormed(Cut(rest, '?').0);
  }

  /** Cutting takes the mark away from the first part, and brings none into either. */
  lemma CutAbsent(s: string, c: char, d: char)
    requires c == d || d !in s
    ensures d !in Cut(s, c).0
    ensures c != d && Cut(s, c).1.Some? ==> d !in Cut(s, c).1.value
  {
  }

  lemma HierarchyIsWellFormed(text: string)
    requires '?' !in text && '#' !in text
    ensures var (scheme, authority, path) := SplitHierarchy(text); WellFormed(Parts(scheme, authority, path, None, None))
  {
    var n := SchemeRun(text);
    if StartsWithScheme(text) {
      SchemeRunIs(text[..n], "", n);
      assert text[..n] + "" == text[..n];
      AuthorityIsWellFormed(text[n + 1..]);
    } else {
      AuthorityIsWellFormed(text);
    }
  }

  lemma AuthorityIsWellFormed(text: string)
    requires '?' !in text && '#' !in text
    ensures var (authority, path) := SplitAuthority(text);
            && WellFormed(Parts(Some("a"), authority, path, None, None))
            && (authority.None? ==> path == text)
  {
    assert SchemeRun("a") == 1 + SchemeRun("a"[1..]);
  }

  lemma {:induction false} SchemeRunIs(scheme: string, rest: string, n: nat)
    requires n == |scheme| && (forall i :: 0 <= i < n ==> IsSchemeChar(scheme[i])) && (rest != "" ==> !IsSchemeChar(rest[0]))
    ensures SchemeRun(scheme + rest) == n
    decreases n
  {
    var text := scheme + rest;
    if n > 0 {
      assert text[1..] == scheme[1..] + rest;
      SchemeRunIs(scheme[1..], rest, n - 1);
    } else {
      assert text == rest;
    }
  }

  lemma SplitOfAuthority(authority: Option<string>, path: string)
    requires authority.Some? ==> '/' !in authority.value && (path == "" || path[0] == '/')
    requires authority.None? ==> !("//" <= path)
    ensures SplitAuthority((if authority.Some? then "//" + authority.value else "") + path) == (authority, path)
  {
    if authority.Some? {
      var rest := "//" + authority.value + path;
      var after := rest[2..];
      assert after == authority.value + path;
      assert after[..|authority.value|] == authority.value && after[|authority.value|..] == path;
      FirstIs(after, '/', |authority.value|);
    } else {
      assert "" + path == path;
    }
  }

  lemma SplitOfJoinHierarchy(scheme: Option<string>, authority: Option<string>, path: string)
    requires scheme.Some? ==> IsScheme(scheme.value)
    requires authority.Some? ==> '/' !in authority.value && (path == "" || path[0] == '/')
    requires authority.None? ==> !("//" <= path)
    requires authority.None? && scheme.None? ==> !StartsWithScheme(path)
    ensures SplitHierarchy(JoinHierarchy(scheme, authority, path)) == (scheme, authority, path)
  {
    var text := JoinHierarchy(scheme, authority, path);
    var rest := (if authority.Some? then "//" + authority.value else "") + path;
    SplitOfAuthority(authority, path);
    if scheme.Some? {
      assert text == scheme.value + (":" + rest);
      SchemeRunIs(scheme.value, ":" + rest, |scheme.value|);
      assert text[0] == scheme.value[0];
      assert text[..|scheme.value|] == scheme.value && text[|scheme.value| + 1..] == rest;
    } else {
      assert text == rest;
      assert authority.Some? ==> rest[0] == '/';
      assert authority.None? ==> rest == path;
    }
  }

  /** Splitting inverts recomposing exactly on the well-formed parts. */
  lemma SplitOfRecompose(p: Parts)
    ensures SplitReference(Recompose(p)) == p <==> WellFormed(p)
  {
    if WellFormed(p) {
      var text := JoinHierarchy(p.scheme, p.authority, p.path);
      HierarchyWithout(p, '?');
      HierarchyWithout(p, '#');
      var whole := Uncut(text, '?', p.query);
      assert '#' !in whole;
      CutOfUncut(whole, '#', p.fragment);
      CutOfUncut(text, '?', p.query);
      SplitOfJoinHierarchy(p.scheme, p.authority, p.path);
    } else {
      SplitIsWellFormed(Recompose(p));
    }
  }

  lemma HierarchyWithout(p: Parts, c: char)
    requires WellFormed(p) && (c == '?' || c == '#')
    ensures c !in JoinHierarchy(p.scheme, p.authority, p.path)
  {
    if p.scheme.Some? {
      assert forall i :: 0 <= i < |p.scheme.value| ==> IsSchemeChar(p.scheme.value[i]);
    }
  }

  // ----- Resolution -----

  function MergePaths(basePath: string, refPath: string): string {
    if basePath == "" then "/" + refPath
    else basePath[..Last(basePath, '/') + 1] + refPath
  }

  /** The components of a reference resolved against a base (RFC 3986 section 5.2.2). */
  function ResolveParts(b: Parts, r: Parts): Parts {
    if r.scheme.Some? then
      Parts(r.scheme, r.authority, Normalized(r.path), r.query, r.fragment)
    else if r.authority.Some? then
      Parts(b.scheme, r.authority, Normalized(r.path), r.query, r.fragment)
    else if r.path == "" then
      Parts(b.scheme, b.authority, b.path, if r.query.Some? then r.query else b.query, r.fragment)
    else if "/" <= r.path then
      Parts(b.scheme, b.authority, Normalized(r.path), r.query, r.fragment)
    else
      Parts(b.scheme, b.authority, Normalized(MergePaths(b.path, r.path)), r.query, r.fragment)
  }

  function Resolve(base: string, reference: string): string {
    Recompose(ResolveParts(SplitReference(base), SplitReference(reference)))
  }

  /** What parsing demands of a text before anything else: a scheme followed by "://". */
  predicate HasSchemeAndAuthority(value: string) {
    StartsWithScheme(value) && "://" <= value[SchemeRun(value)..]
  }

  datatype JoinResult = Joined(text: string) | ParseError(raw: string)

  lemma ReplacedLast(head: string, last: string, refPath: string)
    requires '/' !in last
    ensures MergePaths(head + ("/" + last), refPath) == head + ("/" + refPath)
  {
    hide First;
    var path := head + ("/" + last);
    assert path[|head|] == '/';
    assert forall i :: |head| < i < |path| ==> path[i] == last[i - |head| - 1];
    LastIs(path, '/', |head|);
    assert path[..|head| + 1] == head + "/";
  }

  /** Replacing what follows the last slash: the base's segments but the last, then the reference's. */
  lemma MergedSegments(basePath: string, refPath: string)
    requires "/" <= basePath
    ensures var base := Segments(basePath[1..]);
            SlashFree(base[..|base| - 1] + Segments(refPath))
            && MergePaths(basePath, refPath) == Render(base[..|base| - 1] + Segments(refPath))
  {
    hide Segments, Render, MergePaths;
    var base := Segments(basePath[1..]);
    var init, last := base[..|base| - 1], base[|base| - 1];
    SegmentsSlashFree(basePath[1..]);
    SegmentsSlashFree(refPath);
    RenderSegments(basePath[1..]);
    RenderSegments(refPath);
    assert base == init + [last];
    RenderAppend(init, [last]);
    RenderAlone(last);
    assert basePath == "/" + basePath[1..] == Render(init) + ("/" + last);
    ReplacedLast(Render(init), last, refPath);
    RenderAppend(init, Segments(refPath));
  }

  /** A relative path is read where the base's last segment was, or at the root of a base without a path. */
  lemma MergedPath(basePath: string, refPath: string)
    requires basePath == "" || "/" <= basePath
    ensures var before := if basePath == "" then [] else Segments(basePath[1..])[..|Segments(basePath[1..])| - 1];
            Normalized(MergePaths(basePath, refPath)) == Render(Machine(Output("", []), before + Segments(refPath)).stack)
  {
    SegmentsSlashFree(refPath);
    if basePath == "" {
      RenderSegments(refPath);
      assert [] + Segments(refPath) == Segments(refPath);
      NormalizedRooted(Segments(refPath));
    } else {
      MergedSegments(basePath, refPath);
      NormalizedRooted(Segments(basePath[1..])[..|Segments(basePath[1..])| - 1] + Segments(refPath));
    }
  }

  /** A rooted path is normalised segment by segment. */
  lemma RootedPath(path: string)
    requires "/" <= path
    ensures Normalized(path) == Render(Machine(Output("", []), Segments(path[1..])).stack)
  {
    SegmentsSlashFree(path[1..]);
    RenderSegments(path[1..]);
    assert path == "/" + path[1..];
    NormalizedRooted(Segments(path[1..]));
  }

  /** Where the resolved path comes from, segment by segment. */
  lemma ResolvedPath(base: string, reference: string)
    ensures var against, given := SplitReference(base), SplitReference(reference);
            var resolved := ResolveParts(against, given);
            && ("/" <= given.path ==> resolved.path == Render(Machine(Output("", []), Segments(given.path[1..])).stack))
            && (given.path == "" && (given.scheme.Some? || given.authority.Some?) ==> resolved.path == "")
            && (HasSchemeAndAuthority(base) && given.scheme.None? && given.authority.None? && given.path != "" && !("/" <= given.path) ==>
                  var baseSegments := if against.path == "" then [""] else Segments(against.path[1..]);
                  resolved.path == Render(Machine(Output("", []), baseSegments[..|baseSegments| - 1] + Segments(given.path)).stack))
  {
    hide SplitReference, HasSchemeAndAuthority, Machine, Segments, MergePaths, Normalized;
    var against, given := SplitReference(base), SplitReference(reference);
    NothingNormalized();
    if "/" <= given.path {
      RootedPath(given.path);
    } else if HasSchemeAndAuthority(base) && given.path != "" {
      BaseParts(base);
      MergedPath(against.path, given.path);
      assert [""][..0] == [];
    }
  }

  lemma NothingNormalized()
    ensures Normalized("") == ""
  {
  }

  /** Each component present stands behind or before its mark. */
  lemma RecomposeReads(p: Parts)
    ensures Recompose(p) == (if p.scheme.Some? then p.scheme.value + ":" else "")
                            + (if p.authority.Some? then "//" + p.authority.value else "") + p.path
                            + (if p.query.Some? then "?" + p.query.value else "")
                            + (if p.fragment.Some? then "#" + p.fragment.value else "")
  {
    var head := JoinHierarchy(p.scheme, p.authority, p.path);
    assert head == (if p.scheme.Some? then p.scheme.value + ":" else "")
                   + (if p.authority.Some? then "//" + p.authority.value else "") + p.path;
    assert p.query.Some? ==> Uncut(head, '?', p.query) == head + ("?" + p.query.value);
    var whole := Uncut(head, '?', p.query);
    assert p.fragment.Some? ==> Uncut(whole, '#', p.fragment) == whole + ("#" + p.fragment.value);
  }

  /** A text passes the first check exactly if it is a scheme, "://" and a rest. */
  lemma HasSchemeAndAuthorityIff(value: string)
    ensures HasSchemeAndAuthority(value) <==>
            exists n :: && 0 < n <= |value| && ('A' <= value[0] <= 'Z' || 'a' <= value[0] <= 'z')
                        && (forall i :: 0 <= i < n ==>
                                          || 'A' <= value[i] <= 'Z' || 'a' <= value[i] <= 'z' || '0' <= value[i] <= '9'
                                          || value[i] == '+' || value[i] == '.' || value[i] == '-')
                        && "://" <= value[n..]
  {
    if HasSchemeAndAuthority(value) {
      assert "://" <= value[SchemeRun(value)..];
    }
    if n :| && 0 < n <= |value| && ('A' <= value[0] <= 'Z' || 'a' <= value[0] <= 'z')
            && (forall i :: 0 <= i < n ==>
                              || 'A' <= value[i] <= 'Z' || 'a' <= value[i] <= 'z' || '0' <= value[i] <= '9'
                              || value[i] == '+' || value[i] == '.' || value[i] == '-')
            && "://" <= value[n..] {
      assert forall i :: 0 <= i < n ==> IsSchemeChar(value[i]);
      assert value[n..][0] == ':' && value == value[..n] + value[n..];
      SchemeRunIs(value[..n], value[n..], n);
    }
  }

  /** Resolve a reference with the program's checks around it. `parses` and `validates` stand for the
      rest of what parsing a URL and validating a reference check. */
  method Join(base: string, reference: string, parses: string -> bool, validates: string -> bool)
    returns (r: JoinResult, ghost against: Parts, ghost given: Parts, ghost resolved: Parts)
    ensures r.Joined? <==>
            && HasSchemeAndAuthority(base) && parses(base) && validates(reference)
            && (ResolveParts(SplitReference(base), SplitReference(reference)).authority.Some? ==>
                  HasSchemeAndAuthority(Resolve(base, reference)) && parses(Resolve(base, reference)))
    ensures r.Joined? ==> r.text == Resolve(base, reference)
    ensures r.ParseError? ==>
              r.raw == if !(HasSchemeAndAuthority(base) && parses(base)) then base
                       else if !validates(reference) then reference else Resolve(base, reference)
    ensures against == SplitReference(base) && given == SplitReference(reference) && resolved == ResolveParts(against, given)
    ensures resolved.scheme == (if given.scheme.Some? then given.scheme else against.scheme)
    ensures resolved.authority == if given.scheme.Some? || given.authority.Some? then given.authority else against.authority
    ensures var samePath := given.scheme.None? && given.authority.None? && given.path == "";
            resolved.query == (if samePath && given.query.None? then against.query else given.query)
            && resolved.fragment == given.fragment && (samePath ==> resolved.path == against.path)
    ensures given.path != "" && (given.scheme.Some? || given.authority.Some? || "/" <= given.path) ==> resolved.path == Normalized(given.path)
    ensures given.path == "" && (given.scheme.Some? || given.authority.Some?) ==> resolved.path == ""
    ensures "/" <= given.path ==> resolved.path == Render(Machine(Output("", []), Segments(given.path[1..])).stack)
    ensures r.Joined? && given.scheme.None? && given.authority.None? && given.path != "" && !("/" <= given.path) ==>
              var baseSegments := if against.path == "" then [""] else Segments(against.path[1..]);
              resolved.path == Render(Machine(Output("", []), baseSegments[..|baseSegments| - 1] + Segments(given.path)).stack)
    ensures r.Joined? ==>
              r.text == (if resolved.scheme.Some? then resolved.scheme.value + ":" else "")
                        + (if resolved.authority.Some? then "//" + resolved.authority.value else "") + resolved.path
                        + (if resolved.query.Some? then "?" + resolved.query.value else "")
                        + (if resolved.fragment.Some? then "#" + resolved.fragment.value else "")
  {
    hide Machine, Segments, Render, MergePaths, StartsWithScheme, Last, First, Recompose, Normalized, SplitReference, HasSchemeAndAuthority;
    against, given := SplitReference(base), SplitReference(reference);
    resolved := ResolveParts(against, given);
    ResolvedPath(base, reference);
    RecomposeReads(resolved);
    if !HasSchemeAndAuthority(base) || !parses(base) {
      r := ParseError(base);
      return;
    }
    if !validates(reference) {
      r := ParseError(reference);
      return;
    }
    var b, ref := SplitReference(base), SplitReference(reference);
    var scheme, authority, path, query;
    if ref.scheme.Some? {
      scheme, authority := ref.scheme, ref.authority;
      path := RemoveDotSegments(ref.path);
      query := ref.query;
    } else {
      scheme := b.scheme;
      if ref.authority.Some? {
        authority := ref.authority;
        path := RemoveDotSegments(ref.path);
        query := ref.query;
      } else {
        authority := b.authority;
        if ref.path == "" {
          path := b.path;
          query := if ref.query.Some? then ref.query else b.query;
        } else {
          if "/" <= ref.path {
            path := RemoveDotSegments(ref.path);
          } else {
            path := RemoveDotSegments(MergePaths(b.path, ref.path));
          }
          query := ref.query;
        }
      }
    }
    assert Parts(scheme, authority, path, query, ref.fragment) == resolved;
    var text := Recompose(Parts(scheme, authority, path, query, ref.fragment));
    if authority.Some? && !(HasSchemeAndAuthority(text) && parses(text)) {
      r := ParseError(text);
      return;
    }
    r := Joined(text);
  }

  /** A base that parses has a scheme, an authority and a path that is empty or rooted. */
  lemma BaseParts(base: string)
    requires HasSchemeAndAuthority(base)
    ensures var b := SplitReference(base);
            b.scheme.Some? && b.authority.Some? && (b.path == "" || b.path[0] == '/')
  {
    SplitIsWellFormed(base);
    CutKeepsHead(base, '#');
    CutKeepsHead(Cut(base, '#').0, '?');
    HeadParts(Cut(Cut(base, '#').0, '?').0);
  }

  /** What comes before a query or fragment keeps scheme and authority marks. */
  lemma CutKeepsHead(text: string, c: char)
    requires HasSchemeAndAuthority(text) && c in "?#"
    ensures HasSchemeAndAuthority(Cut(text, c).0)
  {
    var n, f := SchemeRun(text), First(text, c);
    HeadIs(text, n);
    var head := text[..f];
    assert forall i :: 0 <= i < n ==> IsSchemeChar(text[i]) && text[i] != c;
    assert f > n + 2;
    assert head == head[..n] + head[n..];
    SchemeRunIs(head[..n], head[n..], n);
    assert head[n..] == text[n..f];
    assert head[n..][0] == ':' && head[n..][1] == '/' && head[n..][2] == '/';
  }

  lemma HeadIs(text: string, n: nat)
    requires HasSchemeAndAuthority(text) && n == SchemeRun(text)
    ensures n + 2 < |text| && text[n] == ':' && text[n + 1] == '/' && text[n + 2] == '/'
  {
    var rest := text[n..];
    assert rest[0] == ':' && rest[1] == '/' && rest[2] == '/';
  }

  lemma HeadParts(text: string)
    requires HasSchemeAndAuthority(text)
    ensures var (scheme, authority, path) := SplitHierarchy(text);
            scheme.Some? && authority.Some? && (path == "" || path[0] == '/')
  {
    var n := SchemeRun(text);
    HeadIs(text, n);
    assert text[n + 1..][0] == '/' && text[n + 1..][1] == '/';
    assert "//" <= text[n + 1..];
  }

  /** The one way a resolved text does not split back into what was resolved: a reference with its own
      scheme and no authority whose path, once dot segments are gone, starts with two slashes. */
  predicate LooksLikeAuthority(r: Parts) {
    r.scheme.Some? && r.authority.None? && "//" <= Normalized(r.path)
  }

  lemma ResolveIsWellFormed(base: string, reference: string)
    requires HasSchemeAndAuthority(base)
    ensures WellFormed(ResolveParts(SplitReference(base), SplitReference(reference)))
       <==> !LooksLikeAuthority(SplitReference(reference))
  {
    hide SplitReference;
    BaseParts(base);
    SplitIsWellFormed(base);
    SplitIsWellFormed(reference);
    var b, r := SplitReference(base), SplitReference(reference);
    NormalizedWithout(r.path, '?');
    NormalizedWithout(r.path, '#');
    if r.path != "" && r.path[0] == '/' {
      RootedStaysRooted(r.path);
    }
    if r.scheme.None? && r.authority.None? && r.path != "" && r.path[0] != '/' {
      var merged := MergePaths(b.path, r.path);
      MergedIsRooted(b.path, r.path);
      MergedWithout(b.path, r.path, '?');
      MergedWithout(b.path, r.path, '#');
      NormalizedWithout(merged, '?');
      NormalizedWithout(merged, '#');
      RootedStaysRooted(merged);
    }
  }

  lemma RootedStaysRooted(path: string)
    requires path != "" && path[0] == '/'
    ensures Normalized(path) != "" && Normalized(path)[0] == '/'
  {
    SegmentsSlashFree(path[1..]);
    RenderSegments(path[1..]);
    assert path == "/" + path[1..];
    NormalizedRooted(Segments(path[1..]));
  }

  lemma MergedIsRooted(basePath: string, refPath: string)
    requires basePath == "" || basePath[0] == '/'
    ensures MergePaths(basePath, refPath) != "" && MergePaths(basePath, refPath)[0] == '/'
  {
    if basePath != "" {
      assert basePath[..Last(basePath, '/') + 1][0] == '/';
    }
  }

  lemma MergedWithout(basePath: string, refPath: string, c: char)
    requires c !in basePath && c !in refPath && c != '/'
    ensures c !in MergePaths(basePath, refPath)
  {
    assert forall i :: 0 <= i < Last(basePath, '/') + 1 ==> basePath[..Last(basePath, '/') + 1][i] == basePath[i];
  }

  /** The text of a resolution splits back into exactly the resolved components, unless the reference's
      own path looks like an authority. */
  lemma ResolveSplitsBack(base: string, reference: string)
    requires HasSchemeAndAuthority(base)
    ensures SplitReference(Resolve(base, reference)) == ResolveParts(SplitReference(base), SplitReference(reference))
       <==> !LooksLikeAuthority(SplitReference(reference))
  {
    ResolveIsWellFormed(base, reference);
    SplitOfRecompose(ResolveParts(SplitReference(base), SplitReference(reference)));
  }

  /** A reference whose path has no two slashes in a row splits back whatever it is resolved against. */
  lemma NoDoubleSlashSplitsBack(base: string, reference: string)
    requires HasSchemeAndAuthority(base) && NoDoubleSlash(SplitReference(reference).path)
    ensures SplitReference(Resolve(base, reference)) == ResolveParts(SplitReference(base), SplitReference(reference))
  {
    NormalizedWithoutDoubleSlash(SplitReference(reference).path);
    ResolveSplitsBack(base, reference);
  }

  /** The exception read off the reference's own segments. */
  lemma LooksLikeAuthorityIff(r: Parts)
    ensures LooksLikeAuthority(r) <==>
            && r.scheme.Some? && r.authority.None?
            && var segs := Segments(StripLeading(r.path)); |segs| > 1 && EmptyAtBottom(segs[0], segs[1..])
  {
    NormalizedDoubleSlashIff(r.path);
  }

  /** A concrete reference of the exceptional kind, whatever it is resolved against: its path "/.//x" loses its
      dot segment and then reads as an authority. */
  lemma SchemeReferenceReadsAsAuthority(base: string)
    requires HasSchemeAndAuthority(base)
    ensures SplitReference(Resolve(base, "g:/.//x")) != ResolveParts(SplitReference(base), SplitReference("g:/.//x"))
  {
    DotSlashReference();
    NormalizedDotSlash();
    ResolveSplitsBack(base, "g:/.//x");
  }

  const DOT_SLASH := Parts(Some("g"), None, "/.//x", None, None)

  lemma DotSlashReference()
    ensures SplitReference("g:/.//x") == DOT_SLASH
  {
    assert SchemeRun("g"[1..]) == 0 && SchemeRun("g") == 1;
    assert "//"[1] == '/' && "/.//x"[1] == '.';
    assert WellFormed(DOT_SLASH);
    SplitOfRecompose(DOT_SLASH);
    DotSlashText();
  }

  lemma DotSlashText()
    ensures Recompose(DOT_SLASH) == "g:/.//x"
  {
    assert JoinHierarchy(Some("g"), None, "/.//x") == "g" + ":" + ("" + "/.//x");
  }

  lemma NormalizedDotSlash()
    ensures Normalized("/.//x") == "//x"
  {
    assert Render([]) == "" && Render(["x"]) == "/x" && Render(["", "x"]) == "//x" && Render([".", "", "x"]) == "/.//x";
    NormalizedRooted([".", "", "x"]);
    DotMachine();
  }

  lemma DotMachine()
    ensures Render(Machine(Output("", []), [".", "", "x"]).stack) == "//x"
  {
    var out := Output("", []);
    assert [".", "", "x"][1..] == ["", "x"] && ["", "x"][1..] == ["x"] && ["x"][1..] == [];
    assert Machine(out, [".", "", "x"]) == Machine(out, ["", "x"]) == Machine(out.Push(""), ["x"]) == out.Push("").Push("x");
    assert out.Push("").Push("x").stack == ["", "x"];
    assert Render([]) == "" && Render(["x"]) == "/x" && Render(["", "x"]) == "//x";
  }

  /** Resolving the empty reference against a result that splits back keeps every component but the fragment. */
  lemma ResolveEmptyDropsFragment(base: string, reference: string)
    requires HasSchemeAndAuthority(base) && !LooksLikeAuthority(SplitReference(reference))
    ensures var parts := ResolveParts(SplitReference(base), SplitReference(reference));
            Resolve(Resolve(base, reference), "") == Recompose(parts.(fragment := None))
  {
    ResolveSplitsBack(base, reference);
    assert SplitReference("") == Parts(None, None, "", None, None);
  }
}
