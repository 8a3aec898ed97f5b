/** The route guard (middleware.ts): whether a request to an admin or login
    page passes through or is redirected.  The environment variables, the
    session lookup and the request URL's parts are arguments; the cookie
    handling is not part of this model. */
module Middleware {
  import opened Common
  import opened Text

  const AdminPrefix: Str := "/admin"
  const LoginPrefix: Str := "/auth/login"

  /** What the session lookup gave. */
  datatype Lookup = LookupThrew | Found(hasSession: bool)

  datatype Decision =
    | PassThrough
    | ToLogin(redirectTo: Str)    // `/auth/login?redirectTo=<redirectTo>`
    | RedirectTo(target: Str)     // `new URL(target, request.url)`

  /** Both Supabase settings are present and non-empty. */
  predicate Configured(url: Option<Str>, key: Option<Str>) {
    url.Some? && url.value != [] && key.Some? && key.value != []
  }

  // ---------------------------------------------------------------- URL references

  /** A C0 control or space, which the URL parser strips from both ends of
      its input. */
  predicate IsC0OrSpace(c: char) {
    c <= ' '
  }

  /** An ASCII tab or newline, which the URL parser removes everywhere. */
  predicate IsTabOrNewline(c: char) {
    c == '\t' || c == '\n' || c == '\r'
  }

  function StripLeading(s: Str): (r: Str)
    ensures |r| <= |s| && r == s[|s| - |r|..]
    ensures s != [] && !IsC0OrSpace(s[0]) ==> r == s
  {
    if s != [] && IsC0OrSpace(s[0]) then StripLeading(s[1..]) else s
  }

  function StripTrailing(s: Str): (r: Str)
    ensures |r| <= |s| && r == s[..|r|]
    ensures forall i :: |r| <= i < |s| ==> IsC0OrSpace(s[i])
    ensures s != [] && !IsC0OrSpace(s[0]) ==> r != []
    ensures s != [] && !IsC0OrSpace(s[|s| - 1]) ==> r == s
  {
    if s != [] && IsC0OrSpace(s[|s| - 1]) then StripTrailing(s[..|s| - 1]) else s
  }

  function RemoveTabNewline(s: Str): (r: Str)
    ensures forall i :: 0 <= i < |r| ==> !IsTabOrNewline(r[i])
    ensures (forall i :: 0 <= i < |s| ==> !IsTabOrNewline(s[i])) ==> r == s
  {
    if s == [] then []
    else if IsTabOrNewline(s[0]) then RemoveTabNewline(s[1..])
    else [s[0]] + RemoveTabNewline(s[1..])
  }

  /** What the URL parser reads of a reference: the ends stripped of
      controls and spaces, then every tab and newline removed. */
  function UrlInput(ref: Str): Str {
    RemoveTabNewline(StripTrailing(StripLeading(ref)))
  }

  /** A sufficient condition for `new URL(ref, base)`, with an http(s)
      base, to stay on the base's origin: what the parser reads is a path,
      one `/` not followed by a second `/` or a `\`.  References such as
      `https://…`, `//host` and `/\host` fail it and can name another host;
      others that fail it (`foo`, `?x`, `#top`, the empty reference) still
      resolve on the base's origin. */
  predicate ResolvesOnSite(ref: Str) {
    var c := UrlInput(ref);
    |c| >= 1 && c[0] == '/' && (|c| == 1 || (c[1] != '/' && c[1] != '\\'))
  }

  /** The check the corrected middleware makes on `redirectTo`: a path that
      starts with one `/` not followed by `/` or `\`, with no tab or newline
      anywhere (the parser would drop them and could join two slashes). */
  predicate SameOriginPath(ref: Str) {
    |ref| >= 1 && ref[0] == '/' && (|ref| == 1 || (ref[1] != '/' && ref[1] != '\\'))
    && forall i :: 0 <= i < |ref| ==> !IsTabOrNewline(ref[i])
  }

  /** The check is sound: whatever passes it resolves on this site. */
  lemma SameOriginPathResolvesOnSite(ref: Str)
    requires SameOriginPath(ref)
    ensures ResolvesOnSite(ref)
  {
    var t := StripTrailing(StripLeading(ref));
    assert t != [] && t == ref[..|t|];
    NoTabNewlineInPrefix(ref, |t|);
    assert UrlInput(ref) == t;
  }

  lemma NoTabNewlineInPrefix(s: Str, k: nat)
    requires k <= |s| && forall i :: 0 <= i < |s| ==> !IsTabOrNewline(s[i])
    ensures RemoveTabNewline(s[..k]) == s[..k]
  {
    assert forall i :: 0 <= i < k ==> s[..k][i] == s[i];
  }

  /** A tab or newline between two slashes slips past a guard that looks
      only at the first two characters, but the parser reads `//…`: a
      reference to another host. */
  lemma TabJoinsSlashes(ref: Str)
    requires |ref| >= 3 && ref[0] == '/' && IsTabOrNewline(ref[1]) && ref[2] == '/'
    requires !IsC0OrSpace(ref[|ref| - 1])
    ensures ref[1] != '/' && ref[1] != '\\' && !ResolvesOnSite(ref) && !SameOriginPath(ref)
    // what the parser reads starts with `//`: a reference naming a host
    ensures |UrlInput(ref)| >= 2 && UrlInput(ref)[0] == '/' && UrlInput(ref)[1] == '/'
  {
    assert StripTrailing(StripLeading(ref)) == ref;
    assert RemoveTabNewline(ref) == ['/'] + RemoveTabNewline(ref[1..]);
    assert RemoveTabNewline(ref[1..]) == RemoveTabNewline(ref[2..]);
    assert RemoveTabNewline(ref[2..]) == ['/'] + RemoveTabNewline(ref[3..]);
  }

  /** `redirectTo=/%09/evil.example` decodes to such a reference. */
  lemma TabExample()
    ensures !ResolvesOnSite("/\t/evil.example") && !SameOriginPath("/\t/evil.example")
    ensures var c := UrlInput("/\t/evil.example"); |c| >= 2 && c[0] == '/' && c[1] == '/'
  {
    TabJoinsSlashes("/\t/evil.example");
  }

  /** The login page's target as written: `redirectTo || '/admin'`. */
  function LoginTargetAsWritten(redirectTo: Option<Str>): (r: Str)
    ensures redirectTo.Some? && redirectTo.value != [] ==> r == redirectTo.value
    ensures redirectTo.None? || redirectTo.value == [] ==> r == AdminPrefix
  {
    if redirectTo.Some? && redirectTo.value != [] then redirectTo.value else AdminPrefix
  }

  /** The decision as the code makes it. */
  function DecideAsWritten(url: Option<Str>, key: Option<Str>, lookup: Lookup,
                           pathname: Str, redirectTo: Option<Str>): (d: Decision)
    ensures !Configured(url, key) || lookup.LookupThrew? ==> d == PassThrough
    ensures Configured(url, key) && lookup.Found? && StartsWith(pathname, AdminPrefix) && !lookup.hasSession ==>
              d == ToLogin(pathname)
    ensures Configured(url, key) && lookup.Found? && StartsWith(pathname, LoginPrefix) && lookup.hasSession ==>
              d == RedirectTo(LoginTargetAsWritten(redirectTo))
  {
    if !Configured(url, key) then PassThrough
    else if lookup.LookupThrew? then PassThrough
    else if StartsWith(pathname, AdminPrefix) && !lookup.hasSession then ToLogin(pathname)
    else if StartsWith(pathname, LoginPrefix) && lookup.hasSession then RedirectTo(LoginTargetAsWritten(redirectTo))
    else PassThrough
  }

  /** A signed-in visitor who follows `/auth/login?redirectTo=https://evil.example`
      is sent to another host. */
  lemma OpenRedirectExample()
    ensures var d := DecideAsWritten(Some("u"), Some("k"), Found(true), LoginPrefix, Some("https://evil.example"));
            d.RedirectTo? && !ResolvesOnSite(d.target)
  {
    var d := DecideAsWritten(Some("u"), Some("k"), Found(true), LoginPrefix, Some("https://evil.example"));
    assert StartsWith(LoginPrefix, LoginPrefix);
    assert !StartsWith(LoginPrefix, AdminPrefix) by {
      assert LoginPrefix[2] == 'u' && AdminPrefix[2] == 'd';
    }
    assert d.target == "https://evil.example";
    assert StripLeading(d.target) == d.target;
    assert StripTrailing(d.target) == d.target;
    assert UrlInput(d.target)[0] == 'h';
  }

  /** The login page's target, keeping only references on this site. */
  function LoginTarget(redirectTo: Option<Str>): (r: Str)
    ensures SameOriginPath(r) && ResolvesOnSite(r)
    ensures redirectTo.Some? && SameOriginPath(redirectTo.value) ==> r == redirectTo.value
    ensures !(redirectTo.Some? && SameOriginPath(redirectTo.value)) ==> r == AdminPrefix
  {
    var r := if redirectTo.Some? && SameOriginPath(redirectTo.value) then redirectTo.value else AdminPrefix;
    SameOriginPathResolvesOnSite(r);
    r
  }

  /** The decision with the login target confined to this site. */
  function Decide(url: Option<Str>, key: Option<Str>, lookup: Lookup,
                  pathname: Str, redirectTo: Option<Str>): (d: Decision)
    ensures !Configured(url, key) || lookup.LookupThrew? ==> d == PassThrough
    ensures Configured(url, key) && lookup.Found? && StartsWith(pathname, AdminPrefix) && !lookup.hasSession ==>
              d == ToLogin(pathname)
    ensures Configured(url, key) && lookup.Found? && StartsWith(pathname, AdminPrefix) && lookup.hasSession ==>
              !d.ToLogin?
    ensures Configured(url, key) && lookup.Found? && StartsWith(pathname, LoginPrefix) && lookup.hasSession ==>
              d == RedirectTo(LoginTarget(redirectTo))
    ensures d.RedirectTo? ==> SameOriginPath(d.target) && ResolvesOnSite(d.target)
    ensures d.ToLogin? ==> StartsWith(pathname, AdminPrefix) && d.redirectTo == pathname
  {
    if !Configured(url, key) then PassThrough
    else if lookup.LookupThrew? then PassThrough
    else if StartsWith(pathname, AdminPrefix) && !lookup.hasSession then ToLogin(pathname)
    else if StartsWith(pathname, LoginPrefix) && lookup.hasSession then RedirectTo(LoginTarget(redirectTo))
    else PassThrough
  }

  /** The two agree whenever the target is absent, empty or passes the
      guard: they differ only on targets the guard refuses. */
  lemma DecideAgrees(url: Option<Str>, key: Option<Str>, lookup: Lookup, pathname: Str, redirectTo: Option<Str>)
    requires redirectTo.None? || redirectTo.value == [] || SameOriginPath(redirectTo.value)
    ensures Decide(url, key, lookup, pathname, redirectTo) == DecideAsWritten(url, key, lookup, pathname, redirectTo)
  {
  }

  /** The login round trip: a visitor without a session who asks for an
      admin page is sent to the login page, and once signed in the login
      page sends them back to the page they asked for. */
  lemma LoginRoundTrip(url: Option<Str>, key: Option<Str>, pathname: Str)
    requires Configured(url, key) && StartsWith(pathname, AdminPrefix)
    // a parsed pathname never holds a tab or newline
    requires forall i :: 0 <= i < |pathname| ==> !IsTabOrNewline(pathname[i])
    ensures Decide(url, key, Found(false), pathname, None) == ToLogin(pathname)
    ensures Decide(url, key, Found(true), LoginPrefix, Some(pathname)) == RedirectTo(pathname)
  {
    AdminPathSameOrigin(pathname);
    var t := LoginTarget(Some(pathname));
    assert t == pathname;
    assert StartsWith(LoginPrefix, LoginPrefix);
    var d := Decide(url, key, Found(true), LoginPrefix, Some(pathname));
    assert d == RedirectTo(t);
  }

  lemma AdminPathSameOrigin(pathname: Str)
    requires StartsWith(pathname, AdminPrefix)
    requires forall i :: 0 <= i < |pathname| ==> !IsTabOrNewline(pathname[i])
    ensures SameOriginPath(pathname)
  {
    assert pathname[0] == '/' && pathname[1] == AdminPrefix[1] == 'a';
  }

  /** Signed-in visitors reach admin pages; everything outside the two
      guarded prefixes passes through. */
  lemma SignedInOrUnguardedPasses(url: Option<Str>, key: Option<Str>, lookup: Lookup, pathname: Str, redirectTo: Option<Str>)
    requires lookup.Found? && lookup.hasSession ==> !StartsWith(pathname, LoginPrefix)
    requires !StartsWith(pathname, AdminPrefix) || (lookup.Found? && lookup.hasSession)
    ensures Decide(url, key, lookup, pathname, redirectTo) == PassThrough
  {
  }
}
