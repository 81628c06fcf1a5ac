/** Which rule guards a path, and where a bare or unmatched path is sent. */
module Permissions {
  import opened Wrappers
  import opened Text

  // ---- reading a path -------------------------------------------------------------------------

  /** The length of the leading stretch without a slash. */
  function UpToSlash(s: string): (n: nat)
    ensures n <= |s| && '/' !in s[..n] && (n == |s| || s[n] == '/')
  {
    if s == "" || s[0] == '/' then 0
    else
      var n := UpToSlash(s[1..]);
      assert s[..n + 1] == [s[0]] + s[1..][..n];
      n + 1
  }

  /** What follows the literal prefix `/t/`. */
  function AfterT(path: string): Option<string> {
    if |path| >= 3 && path[0] == '/' && path[1] == 't' && path[2] == '/' then Some(path[3..]) else None
  }

  /** `tenantFromPath`: the tenant context a path is in. */
  function TenantFromPath(path: string): Option<string> {
    if AfterT(path).None? then None
    else
      var s := AfterT(path).value;
      var n := UpToSlash(s);
      if n == 0 then None else Some(s[..n])
  }

  /** A line terminator, which the dot of a pattern does not match. */
  predicate EndsLine(c: char) {
    c == '\n' || c == '\r' || c == '\U{2028}' || c == '\U{2029}'
  }

  predicate OneLine(s: string) {
    forall i :: 0 <= i < |s| ==> !EndsLine(s[i])
  }

  /** `stripTenantPrefix`: the path inside its tenant context, if it is in one. */
  function StripTenantPrefix(path: string): string {
    if TenantFromPath(path).None? then path
    else
      var rest := AfterT(path).value[UpToSlash(AfterT(path).value)..];
      if rest == "" then "/dashboard" else if OneLine(rest) then rest else path
  }

  predicate CleanId(id: string) {
    id != "" && '/' !in id && '?' !in id && '#' !in id
  }

  function Scoped(tenant: string, path: string): string {
    "/t/" + tenant + path
  }

  lemma {:induction false} UpToSlashOf(a: string, b: string)
    requires '/' !in a && b != "" && b[0] == '/'
    ensures UpToSlash(a + b) == |a|
  {
    if a == "" {
      assert a + b == b;
    } else {
      assert (a + b)[1..] == a[1..] + b;
      UpToSlashOf(a[1..], b);
    }
  }

  lemma ScopedIsInside(tenant: string, path: string)
    requires tenant != "" && '/' !in tenant && path != "" && path[0] == '/'
    ensures AfterT(Scoped(tenant, path)) == Some(tenant + path) && UpToSlash(tenant + path) == |tenant|
    ensures TenantFromPath(Scoped(tenant, path)) == Some(tenant)
  {
    assert Scoped(tenant, path)[3..] == tenant + path;
    UpToSlashOf(tenant, path);
    assert (tenant + path)[..|tenant|] == tenant;
  }

  /** Putting a path into a tenant context is undone by reading the tenant and stripping the prefix. */
  lemma ScopedReadsBack(tenant: string, path: string)
    requires tenant != "" && '/' !in tenant && path != "" && path[0] == '/' && OneLine(path)
    ensures TenantFromPath(Scoped(tenant, path)) == Some(tenant)
    ensures StripTenantPrefix(Scoped(tenant, path)) == path
  {
    ScopedIsInside(tenant, path);
    assert (tenant + path)[|tenant|..] == path;
  }

  // ---- the rule of a path ---------------------------------------------------------------------

  datatype Rule = Rule(perm: Option<string>, platformOnly: bool, platform: bool)

  datatype User = User(platform: bool, superAdmin: bool, tenantId: string, permissions: set<string>)

  predicate CanAccess(user: Option<User>, rule: Option<Rule>) {
    if rule.None? then true
    else if user.None? then false
    else if rule.value.platformOnly then user.value.platform && user.value.superAdmin
    else if rule.value.platform && !user.value.platform then false
    else rule.value.perm.Some? ==> rule.value.perm.value in user.value.permissions
  }

  /** The key is the path, or the path up to a segment boundary. */
  predicate Governs(key: string, path: string) {
    path == key || key + "/" <= path
  }

  /** A key governs itself and everything under it, trailing slash included, and nothing that merely
      begins with its letters. */
  lemma GovernsIff(key: string, path: string)
    ensures Governs(key, path) <==> path == key || exists rest :: path == key + "/" + rest
  {
    if key + "/" <= path {
      assert path == key + "/" + path[|key + "/"|..];
    }
  }

  /** The first key of a list that governs the path. */
  function FirstGoverning(keys: seq<string>, path: string): Option<string> {
    if keys == [] then None
    else if Governs(keys[0], path) then Some(keys[0])
    else FirstGoverning(keys[1..], path)
  }

  /** The map's keys, longest first; keys of one length in any order. */
  ghost predicate LongestFirst(keys: seq<string>, access: map<string, Rule>) {
    && (forall k :: k in keys <==> k in access)
    && forall i, j :: 0 <= i < j < |keys| ==> |keys[i]| >= |keys[j]|
  }

  function RuleFor(access: map<string, Rule>, keys: seq<string>, pathname: string): Option<Rule>
    requires LongestFirst(keys, access)
  {
    var key := FirstGoverning(keys, StripTenantPrefix(pathname));
    FoundIsMember(keys, StripTenantPrefix(pathname));
    if key.Some? && key.value != "" then Some(access[key.value]) else None
  }

  lemma {:induction false} FoundIsMember(keys: seq<string>, path: string)
    ensures FirstGoverning(keys, path).Some? ==> FirstGoverning(keys, path).value in keys
  {
    if keys != [] {
      FoundIsMember(keys[1..], path);
    }
  }

  /** The longest of the map's keys that governs the path; strictly longer than any other. */
  predicate IsLongest(key: string, access: map<string, Rule>, path: string) {
    key in access && Governs(key, path) && forall k :: k in access && Governs(k, path) && k != key ==> |k| < |key|
  }

  /** Two different keys that govern one path differ in length. */
  lemma GoverningLengthsDiffer(a: string, b: string, path: string)
    requires Governs(a, path) && Governs(b, path) && |a| == |b|
    ensures a == b
  {
    assert a == path[..|a|] && b == path[..|b|];
  }

  lemma {:induction false} FirstIsLongest(keys: seq<string>, path: string)
    requires forall i, j :: 0 <= i < j < |keys| ==> |keys[i]| >= |keys[j]|
    ensures var r := FirstGoverning(keys, path);
            && (r.None? <==> forall k :: k in keys ==> !Governs(k, path))
            && (r.Some? ==> r.value in keys && Governs(r.value, path)
                            && forall k :: k in keys && Governs(k, path) && k != r.value ==> |k| < |r.value|)
  {
    if keys != [] {
      FirstIsLongest(keys[1..], path);
      if Governs(keys[0], path) {
        forall k | k in keys && Governs(k, path) && k != keys[0] ensures |k| < |keys[0]| {
          var i :| 0 <= i < |keys| && keys[i] == k;
          if |k| == |keys[0]| {
            GoverningLengthsDiffer(k, keys[0], path);
          }
        }
      }
    }
  }

  /** Whatever order the keys come in, the rule is that of the one longest key governing the stripped
      path, and there is no rule exactly when no key governs it. */
  lemma RuleIsLongest(access: map<string, Rule>, keys: seq<string>, pathname: string, key: string)
    requires LongestFirst(keys, access) && "" !in access
    ensures var path := StripTenantPrefix(pathname);
            && (RuleFor(access, keys, pathname).None? <==> forall k :: k in access ==> !Governs(k, path))
            && (IsLongest(key, access, path) ==> RuleFor(access, keys, pathname) == Some(access[key]))
  {
    FirstIsLongest(keys, StripTenantPrefix(pathname));
  }

  /** A path outside any tenant context. */
  predicate Bare(path: string) {
    path != "" && path[0] == '/' && OneLine(path) && TenantFromPath(path).None?
  }

  /** The tenant says which tenant, never what may be done there. */
  lemma TenantDoesNotChangeRule(access: map<string, Rule>, keys: seq<string>, tenant: string, path: string)
    requires LongestFirst(keys, access) && Bare(path) && tenant != "" && '/' !in tenant
    ensures RuleFor(access, keys, Scoped(tenant, path)) == RuleFor(access, keys, path)
  {
    ScopedReadsBack(tenant, path);
  }

  function DirectLookup(access: map<string, Rule>, path: string): Option<Rule> {
    if path in access then Some(access[path]) else None
  }

  /** The sidebar's direct lookup is the guard's rule exactly for the map's own keys and for the
      paths no key governs; in between the sidebar shows what the guard may refuse. */
  lemma DirectLookupAgreesIff(access: map<string, Rule>, keys: seq<string>, path: string)
    requires LongestFirst(keys, access) && "" !in access && Bare(path)
    ensures DirectLookup(access, path) == RuleFor(access, keys, path) <==>
            path in access || forall k :: k in access ==> !Governs(k, path)
  {
    RuleIsLongest(access, keys, path, path);
    if path in access {
      forall k | k in access && Governs(k, path) && k != path ensures |k| < |path| {
        assert |k + "/"| <= |path|;
      }
      assert IsLongest(path, access, path);
    }
  }

  /** A nav entry on a key and the page behind it never disagree, inside any tenant. */
  lemma SidebarAgreesWithGuard(access: map<string, Rule>, keys: seq<string>, key: string, tenant: string, user: Option<User>)
    requires LongestFirst(keys, access) && "" !in access
    requires key in access && Bare(key) && tenant != "" && '/' !in tenant
    ensures CanAccess(user, DirectLookup(access, key)) <==> CanAccess(user, RuleFor(access, keys, key))
    ensures CanAccess(user, DirectLookup(access, key)) <==> CanAccess(user, RuleFor(access, keys, Scoped(tenant, key)))
  {
    DirectLookupAgreesIff(access, keys, key);
    TenantDoesNotChangeRule(access, keys, tenant, key);
  }

  /** A key under a governing one without a rule of its own: shown to everyone, refused on the page. */
  lemma MissingKeyDisagrees(user: User)
    requires !user.platform
    ensures var access := map["/admin" := Rule(None, true, false)];
            CanAccess(Some(user), DirectLookup(access, "/admin/x")) && !CanAccess(Some(user), RuleFor(access, ["/admin"], "/admin/x"))
  {
    var path := "/admin/x";
    assert |path| == 8 && |"/admin"| == 6 && path[1] == 'a';
    assert AfterT(path).None?;
    assert "/admin" + "/" == path[..7];
    assert Governs("/admin", path);
  }

  /** A tenant's bare root is ruled on as its dashboard. */
  lemma TenantRootIsItsDashboard(access: map<string, Rule>, keys: seq<string>, tenant: string)
    requires LongestFirst(keys, access) && tenant != "" && '/' !in tenant
    ensures TenantFromPath("/t/" + tenant) == Some(tenant)
    ensures RuleFor(access, keys, "/t/" + tenant) == RuleFor(access, keys, Scoped(tenant, "/dashboard"))
  {
    var root := "/t/" + tenant;
    assert root[3..] == tenant;
    assert UpToSlash(tenant) == |tenant| && tenant[..|tenant|] == tenant && tenant[|tenant|..] == "";
    ScopedReadsBack(tenant, "/dashboard");
  }

  /** The users a key's rule is meant for: platform super-admins, platform users, or anyone signed
      in, each with the permission it names. */
  predicate MeantFor(rule: Rule, user: User) {
    && (rule.platformOnly ==> user.platform && user.superAdmin)
    && (rule.platform && !rule.platformOnly ==> user.platform)
    && (rule.perm.Some? && !rule.platformOnly ==> rule.perm.value in user.permissions)
  }

  /** The guard admits exactly the users the longest governing key is meant for, on the bare path and
      inside any tenant. */
  lemma AdmitsExactlyThoseMeant(access: map<string, Rule>, keys: seq<string>, tenant: string, path: string, key: string, user: Option<User>)
    requires LongestFirst(keys, access) && "" !in access && Bare(path) && tenant != "" && '/' !in tenant
    requires IsLongest(key, access, path)
    ensures CanAccess(user, RuleFor(access, keys, path)) <==> user.Some? && MeantFor(access[key], user.value)
    ensures CanAccess(user, RuleFor(access, keys, Scoped(tenant, path))) <==> user.Some? && MeantFor(access[key], user.value)
  {
    assert TenantFromPath(path).None? && StripTenantPrefix(path) == path;
    RuleIsLongest(access, keys, path, key);
    TenantDoesNotChangeRule(access, keys, tenant, path);
  }

  /** A path is open to someone not signed in exactly when no key governs it, and is then open to
      everyone. */
  lemma OpenIffUngoverned(access: map<string, Rule>, keys: seq<string>, pathname: string)
    requires LongestFirst(keys, access) && "" !in access
    ensures CanAccess(None, RuleFor(access, keys, pathname)) <==> forall k :: k in access ==> !Governs(k, StripTenantPrefix(pathname))
    ensures CanAccess(None, RuleFor(access, keys, pathname)) ==> forall user :: CanAccess(user, RuleFor(access, keys, pathname))
  {
    RuleIsLongest(access, keys, pathname, "");
  }

  /** Granting permissions never loses access to any path, and a permission no rule on the path names
      changes nothing. */
  lemma GrantingLosesNothing(access: map<string, Rule>, keys: seq<string>, pathname: string, user: User, more: set<string>)
    requires LongestFirst(keys, access)
    ensures var rule := RuleFor(access, keys, pathname); var granted := Some(user.(permissions := user.permissions + more));
            && (CanAccess(Some(user), rule) ==> CanAccess(granted, rule))
            && (CanAccess(granted, rule) && !CanAccess(Some(user), rule) ==>
                  rule.Some? && rule.value.perm.Some? && rule.value.perm.value in more)
  {
  }

  // ---- redirects ------------------------------------------------------------------------------

  /** `redirectTargetFor` a signed-in user. */
  function RedirectTargetFor(user: User, pathname: string): string {
    if user.platform || user.tenantId == "" then "/tenants"
    else if TenantFromPath(pathname).Some? then Scoped(user.tenantId, "/dashboard")
    else Scoped(user.tenantId, if pathname == "/" then "/dashboard" else pathname)
  }

  function WithoutTrailing(path: string): string {
    if path != "" && path[|path| - 1] == '/' then WithoutTrailing(path[..|path| - 1]) else path
  }

  /** How many segments a tenant page takes after its name. */
  datatype Extent = Extent(least: nat, most: nat)

  /** The page routes: the platform's whole paths, and the tenant pages by name. */
  datatype Routes = Routes(platform: set<string>, pages: map<string, Extent>)

  /** A page route serves the path: trailing slashes do not count, no parameter is empty. */
  predicate Served(r: Routes, path: string) {
    var p := WithoutTrailing(path);
    p in r.platform || ServedInTenant(r, Split(p, '/'))
  }

  predicate ServedInTenant(r: Routes, s: seq<string>) {
    && |s| >= 4 && s[0] == "" && s[1] == "t" && (forall i :: 2 <= i < |s| ==> s[i] != "")
    && s[3] in r.pages && r.pages[s[3]].least <= |s| - 4 <= r.pages[s[3]].most
  }

  /** What the redirects count on: the registry and every tenant's dashboard are pages. */
  predicate HasHomes(r: Routes) {
    && "/tenants" in r.platform
    && "dashboard" in r.pages && r.pages["dashboard"].least == 0
  }

  /** The root and the sign-in pages send a signed-in user on. */
  predicate IsEntry(path: string) {
    path == "/" || path == "/login" || path == "/callback"
  }

  /** One navigation of a signed-in user; None when the path is served where it is. */
  function Navigate(r: Routes, user: User, path: string): Option<string> {
    if IsEntry(path) then Some("/dashboard")
    else if Served(r, path) then None
    else Some(PathPart(RedirectTargetFor(user, path)))
  }

  /** The pathname of a navigation target: up to its query or fragment. */
  function PathPart(target: string): string {
    if target == "" || target[0] == '?' || target[0] == '#' then "" else [target[0]] + PathPart(target[1..])
  }

  lemma {:induction false} PathPartOfPlain(target: string)
    requires '?' !in target && '#' !in target
    ensures PathPart(target) == target
  {
    if target != "" {
      PathPartOfPlain(target[1..]);
    }
  }

  function Home(user: User): string {
    if user.platform || user.tenantId == "" then "/tenants" else Scoped(user.tenantId, "/dashboard")
  }

  predicate KnownUser(user: User) {
    user.platform || user.tenantId == "" || CleanId(user.tenantId)
  }

  lemma ScopedText(tenant: string, page: string)
    ensures Scoped(tenant, "/" + page) == [] + ['/'] + (['t'] + ['/'] + (tenant + ['/'] + page))
  {
  }

  lemma ScopedSplits(tenant: string, page: string)
    ensures Split(Scoped(tenant, "/" + page), '/') == ["", "t"] + (Split(tenant, '/') + Split(page, '/'))
  {
    var rest := tenant + ['/'] + page;
    ScopedText(tenant, page);
    SplitAtSeparator(tenant, page, '/');
    SplitWithoutSeparator(['t'], '/');
    SplitAtSeparator(['t'], rest, '/');
    SplitAtSeparator([], ['t'] + ['/'] + rest, '/');
    assert [[]] + ([['t']] + Split(rest, '/')) == ["", "t"] + Split(rest, '/');
  }

  lemma EndsPlainly(path: string, page: string)
    requires page != "" && page[|page| - 1] != '/'
    ensures WithoutTrailing(path + page) == path + page
  {
    assert (path + page)[|path + page| - 1] == page[|page| - 1];
  }

  /** A tenant page without further segments. */
  lemma PageIsServed(r: Routes, tenant: string, page: string)
    requires CleanId(tenant) && page != "" && '/' !in page && page in r.pages && r.pages[page].least == 0
    ensures Served(r, Scoped(tenant, "/" + page)) && !IsEntry(Scoped(tenant, "/" + page))
  {
    var path := Scoped(tenant, "/" + page);
    assert path == ("/t/" + tenant + "/") + page;
    assert page[|page| - 1] in page;
    EndsPlainly("/t/" + tenant + "/", page);
    ScopedSplits(tenant, page);
    SplitWithoutSeparator(tenant, '/');
    SplitWithoutSeparator(page, '/');
    assert ["", "t"] + ([tenant] + [page]) == ["", "t", tenant, page];
    ScopedIsInside(tenant, "/" + page);
    assert path[1] == 't' && path[2] == '/';
  }

  lemma HomeIsServed(r: Routes, user: User)
    requires HasHomes(r) && KnownUser(user)
    ensures Navigate(r, user, Home(user)) == None
  {
    if user.platform || user.tenantId == "" {
      var path := "/tenants";
      assert path[7] == 's' && path[1] == 't' && |path| == 8;
    } else {
      assert "/" + "dashboard" == "/dashboard";
      PageIsServed(r, user.tenantId, "dashboard");
    }
  }

  /** A path a location can have. */
  predicate Located(path: string) {
    path != "" && path[0] == '/' && '?' !in path && '#' !in path
  }

  /** A redirect goes home, or from outside any tenant into the user's own. */
  lemma RedirectGoesHomeOrIn(user: User, path: string)
    requires KnownUser(user) && Located(path)
    ensures var next := PathPart(RedirectTargetFor(user, path));
            Located(next) && (next == Home(user) || (TenantFromPath(path).None? && TenantFromPath(next).Some? && !IsEntry(next)))
  {
    if TenantFromPath(path).None? && !user.platform && user.tenantId != "" {
      IntoTenant(user, path);
    } else {
      PlainHome(user);
    }
  }

  lemma PlainHome(user: User)
    requires KnownUser(user)
    ensures Located(Home(user)) && PathPart(Home(user)) == Home(user)
  {
    PathPartOfPlain(Home(user));
  }

  lemma ScopedIsPlain(tenant: string, path: string)
    requires CleanId(tenant) && Located(path)
    ensures Located(Scoped(tenant, path)) && PathPart(Scoped(tenant, path)) == Scoped(tenant, path)
  {
    PathPartOfPlain(Scoped(tenant, path));
  }

  lemma ScopedIsNotEntry(tenant: string, path: string)
    requires CleanId(tenant) && Located(path)
    ensures TenantFromPath(Scoped(tenant, path)).Some? && !IsEntry(Scoped(tenant, path))
  {
    ScopedIsInside(tenant, path);
    assert Scoped(tenant, path)[1] == 't' && Scoped(tenant, path)[2] == '/';
  }

  lemma IntoTenant(user: User, path: string)
    requires CleanId(user.tenantId) && Located(path)
    ensures var inner := if path == "/" then "/dashboard" else path;
            var next := Scoped(user.tenantId, inner);
            Located(next) && PathPart(next) == next && TenantFromPath(next).Some? && !IsEntry(next)
  {
    var inner := if path == "/" then "/dashboard" else path;
    ScopedIsPlain(user.tenantId, inner);
    ScopedIsNotEntry(user.tenantId, inner);
  }

  /** Where a user is after one navigation, if there is one. */
  function Next(r: Routes, user: User, path: string): string {
    if Navigate(r, user, path).Some? then Navigate(r, user, path).value else path
  }

  function After(r: Routes, user: User, path: string, n: nat): string {
    if n == 0 then path else Next(r, user, After(r, user, path, n - 1))
  }

  lemma AfterTwo(r: Routes, user: User, path: string)
    ensures After(r, user, path, 2) == Next(r, user, Next(r, user, path))
  {
    assert After(r, user, path, 0) == path;
    assert After(r, user, path, 2 - 1) == Next(r, user, path);
  }

  lemma OneFromHome(r: Routes, user: User, path: string)
    requires HasHomes(r) && KnownUser(user) && !IsEntry(path) && PathPart(RedirectTargetFor(user, path)) == Home(user)
    ensures Navigate(r, user, Next(r, user, path)) == None
  {
    HomeIsServed(r, user);
  }

  lemma SettlesVia(r: Routes, user: User, path: string, via: string)
    requires HasHomes(r) && KnownUser(user) && Next(r, user, path) == via
    requires !IsEntry(via) && PathPart(RedirectTargetFor(user, via)) == Home(user)
    ensures Navigate(r, user, After(r, user, path, 2)) == None
  {
    AfterTwo(r, user, path);
    OneFromHome(r, user, via);
  }

  lemma EntryNext(r: Routes, user: User, path: string)
    requires IsEntry(path)
    ensures Next(r, user, path) == "/dashboard" && !IsEntry("/dashboard")
  {
    assert "/dashboard"[1] == 'd';
  }

  lemma SettlesFromEntry(r: Routes, user: User, path: string)
    requires HasHomes(r) && KnownUser(user) && IsEntry(path)
    ensures Navigate(r, user, After(r, user, path, 2)) == None
  {
    EntryNext(r, user, path);
    DashboardGoesHome(user);
    SettlesVia(r, user, path, "/dashboard");
  }

  lemma SettlesElsewhere(r: Routes, user: User, path: string)
    requires HasHomes(r) && KnownUser(user) && Located(path) && !IsEntry(path)
    ensures Navigate(r, user, After(r, user, path, 2)) == None
  {
    AfterTwo(r, user, path);
    HomeIsServed(r, user);
    RedirectGoesHomeOrIn(user, path);
    RedirectGoesHomeOrIn(user, PathPart(RedirectTargetFor(user, path)));
  }

  /** Every signed-in user settles, from any path, after at most two navigations. */
  lemma SettlesInTwo(r: Routes, user: User, path: string)
    requires HasHomes(r) && KnownUser(user) && Located(path)
    ensures Navigate(r, user, After(r, user, path, 2)) == None
  {
    if IsEntry(path) {
      SettlesFromEntry(r, user, path);
    } else {
      SettlesElsewhere(r, user, path);
    }
  }

  lemma DashboardGoesHome(user: User)
    requires KnownUser(user)
    ensures PathPart(RedirectTargetFor(user, "/dashboard")) == Home(user)
  {
    var path := "/dashboard";
    assert path[1] == 'd' && |path| == 10;
    PathPartOfPlain(RedirectTargetFor(user, path));
  }

  /** The root and the sign-in pages take a signed-in user home. */
  lemma SignInLeadsHome(r: Routes, user: User, path: string)
    requires HasHomes(r) && KnownUser(user) && "/dashboard" !in r.platform && path in {"/", "/login", "/callback"}
    ensures After(r, user, path, 2) == Home(user) && Navigate(r, user, Home(user)) == None
  {
    EntryNext(r, user, path);
    AfterTwo(r, user, path);
    DashboardGoesHome(user);
    DashboardIsNotServed(r);
    HomeIsServed(r, user);
  }

  lemma DashboardIsNotServed(r: Routes)
    requires "/dashboard" !in r.platform
    ensures !Served(r, "/dashboard")
  {
    EndsPlainly("/", "dashboard");
    assert "/" + "dashboard" == "/dashboard" == [] + ['/'] + "dashboard";
    SplitWithoutSeparator("dashboard", '/');
    SplitAtSeparator([], "dashboard", '/');
  }

  /** A path that redirects to itself is never left. */
  lemma {:induction false} SelfRedirectLoops(r: Routes, user: User, path: string, n: nat)
    requires Next(r, user, path) == path
    ensures After(r, user, path, n) == path
  {
    if n > 0 {
      SelfRedirectLoops(r, user, path, n - 1);
    }
  }

  // ---- tenant ids a navigation target is cut at -----------------------------------------------

  predicate Cuts(id: string) {
    '?' in id || '#' in id
  }

  lemma {:induction false} PathPartOfCut(s: string, rest: string)
    requires Cuts(s)
    ensures PathPart(s + rest) == PathPart(s) && PathPart(s) <= s && !Cuts(PathPart(s))
  {
    assert (s + rest)[0] == s[0];
    if s[0] != '?' && s[0] != '#' {
      assert s == [s[0]] + s[1..] && (s + rest)[1..] == s[1..] + rest;
      PathPartOfCut(s[1..], rest);
    }
  }

  /** Where every navigation of such a user lands. */
  function CutHome(id: string): string {
    "/t/" + PathPart(id)
  }

  lemma CutScope(id: string, path: string)
    requires Cuts(id)
    ensures PathPart(Scoped(id, path)) == CutHome(id)
  {
    var s := "/t/" + id;
    PathPartOfCut(id, path);
    assert Scoped(id, path) == "/t/" + (id + path);
    PrefixPasses(id + path);
  }

  lemma PrefixPasses(rest: string)
    ensures PathPart("/t/" + rest) == "/t/" + PathPart(rest)
  {
    assert ("/t/" + rest)[1..] == "t/" + rest;
    assert ("t/" + rest)[1..] == "/" + rest;
    assert ("/" + rest)[1..] == rest;
    assert PathPart("/" + rest) == "/" + PathPart(rest);
    assert PathPart("t/" + rest) == "t" + ("/" + PathPart(rest));
  }

  /** No platform page lies in or at the tenant prefix. */
  predicate PrefixIsFree(r: Routes) {
    "/t" !in r.platform && forall p :: p in r.platform ==> AfterT(p).None?
  }

  lemma CutHomePieces(part: string)
    requires '/' !in part
    ensures WithoutTrailing("/t/" + part) == if part == "" then "/t" else "/t/" + part
    ensures |Split(WithoutTrailing("/t/" + part), '/')| < 4
  {
    SplitWithoutSeparator(['t'], '/');
    SplitWithoutSeparator(part, '/');
    SplitAtSeparator([], ['t'], '/');
    SplitAtSeparator([], ['t'] + ['/'] + part, '/');
    SplitAtSeparator(['t'], part, '/');
    assert [] + ['/'] + ['t'] == "/t";
    assert [] + ['/'] + (['t'] + ['/'] + part) == "/t/" + part;
    if part == "" {
      assert ("/t/" + part)[..2] == "/t";
    } else {
      assert part[|part| - 1] in part;
      EndsPlainly("/t/", part);
    }
  }

  lemma CutHomeIsNotServed(r: Routes, id: string)
    requires PrefixIsFree(r) && Cuts(id) && '/' !in id
    ensures !Served(r, CutHome(id)) && !IsEntry(CutHome(id)) && Located(CutHome(id))
  {
    PathPartOfCut(id, "");
    var part := PathPart(id);
    assert forall i :: 0 <= i < |part| ==> part[i] == id[i];
    CutHomePieces(part);
    assert CutHome(id)[1] == 't' && CutHome(id)[2] == '/';
    assert AfterT("/t/" + part).Some?;
  }

  // ---- exactly which tenant ids settle --------------------------------------------------------

  /** Where a navigation home lands. */
  function HomePath(user: User): string {
    PathPart(Home(user))
  }

  predicate TenantUser(user: User) {
    !user.platform && user.tenantId != ""
  }

  /** A scoped path is inside a tenant context unless the id starts with a slash. */
  lemma ScopedContext(id: string, path: string)
    requires id != ""
    ensures AfterT(Scoped(id, path)).Some? && !IsEntry(Scoped(id, path))
    ensures TenantFromPath(Scoped(id, path)).Some? <==> id[0] != '/'
  {
    assert Scoped(id, path)[3..] == id + path;
    assert (id + path)[0] == id[0];
    assert Scoped(id, path)[1] == 't' && Scoped(id, path)[2] == '/';
    assert UpToSlash(id + path) == 0 <==> id[0] == '/';
  }

  lemma LandsLocated(id: string, path: string)
    requires Located(path)
    ensures var next := PathPart(Scoped(id, path));
            Located(next) && |next| >= 3 && next[1] == 't' && next[2] == '/' && !IsEntry(next)
            && (!Cuts(id) ==> next == Scoped(id, path)) && (Cuts(id) ==> next == CutHome(id))
  {
    if Cuts(id) {
      PathPartOfCut(id, "");
      CutScope(id, path);
    } else {
      PathPartOfPlain(Scoped(id, path));
    }
  }

  lemma EmptyTenantPieces(rest: string)
    ensures |Split("/t//" + rest, '/')| >= 4 && Split("/t//" + rest, '/')[2] == ""
    ensures |Split("/t", '/')| == 2
  {
    SplitWithoutSeparator(['t'], '/');
    SplitAtSeparator([], ['t'], '/');
    SplitAtSeparator([], rest, '/');
    SplitAtSeparator(['t'], [] + ['/'] + rest, '/');
    SplitAtSeparator([], ['t'] + ['/'] + ([] + ['/'] + rest), '/');
    assert [] + ['/'] + ['t'] == "/t";
    assert [] + ['/'] + (['t'] + ['/'] + ([] + ['/'] + rest)) == "/t//" + rest;
  }

  /** Dropping trailing slashes keeps everything up to the last other character. */
  lemma {:induction false} TrailingSlashes(path: string)
    ensures WithoutTrailing(path) <= path
    ensures forall i :: |WithoutTrailing(path)| <= i < |path| ==> path[i] == '/'
    ensures WithoutTrailing(path) != "" ==> WithoutTrailing(path)[|WithoutTrailing(path)| - 1] != '/'
  {
    if path != "" && path[|path| - 1] == '/' {
      TrailingSlashes(path[..|path| - 1]);
    }
  }

  lemma EmptyTenantTrimmed(path: string)
    requires |path| >= 4 && path[..4] == "/t//"
    ensures var p := WithoutTrailing(path); p == "/t" || (|p| >= 4 && p == "/t//" + p[4..])
  {
    var p := WithoutTrailing(path);
    TrailingSlashes(path);
    assert path[0] == '/' && path[1] == 't' && path[2] == '/' && path[3] == '/';
    assert |p| >= 2 && |p| != 3;
    if |p| == 2 {
      assert p == path[..4][..2];
    } else {
      assert p[..4] == path[..4];
    }
  }

  /** A path with an empty tenant segment is served by nothing. */
  lemma EmptyTenantIsNotServed(r: Routes, path: string)
    requires PrefixIsFree(r) && |path| >= 4 && path[..4] == "/t//"
    ensures !Served(r, path)
  {
    var p := WithoutTrailing(path);
    EmptyTenantTrimmed(path);
    if p == "/t" {
      EmptyTenantPieces("");
    } else {
      EmptyTenantPieces(p[4..]);
      assert p[1] == 't' && p[2] == '/' && AfterT(p).Some?;
    }
  }

  lemma ServedHomeHasContext(r: Routes, user: User)
    requires PrefixIsFree(r) && TenantUser(user) && !Cuts(user.tenantId) && Served(r, HomePath(user))
    ensures user.tenantId[0] != '/'
  {
    LandsLocated(user.tenantId, "/dashboard");
    var home := Scoped(user.tenantId, "/dashboard");
    if user.tenantId[0] == '/' {
      assert home[..4] == "/t//";
      EmptyTenantIsNotServed(r, home);
    }
  }

  lemma OneFromServedHome(r: Routes, user: User, path: string)
    requires TenantUser(user) && Served(r, HomePath(user)) && !IsEntry(path)
    requires Served(r, path) || PathPart(RedirectTargetFor(user, path)) == HomePath(user)
    ensures Navigate(r, user, Next(r, user, path)) == None
  {
    LandsLocated(user.tenantId, "/dashboard");
  }

  lemma ServedHomeSettlesEntry(r: Routes, user: User, path: string)
    requires TenantUser(user) && Served(r, HomePath(user)) && IsEntry(path)
    ensures Navigate(r, user, After(r, user, path, 2)) == None
  {
    AfterTwo(r, user, path);
    EntryNext(r, user, path);
    assert TenantFromPath("/dashboard").None? by { assert "/dashboard"[1] == 'd'; }
    OneFromServedHome(r, user, "/dashboard");
  }

  lemma ServedHomeSettlesHome(r: Routes, user: User, path: string)
    requires TenantUser(user) && Served(r, HomePath(user)) && Located(path) && !IsEntry(path) && !Served(r, path)
    requires TenantFromPath(path).Some? || Cuts(user.tenantId)
    ensures Next(r, user, path) == HomePath(user) && Navigate(r, user, HomePath(user)) == None
  {
    LandsLocated(user.tenantId, path);
    LandsLocated(user.tenantId, "/dashboard");
  }

  lemma ServedHomeSettlesInside(r: Routes, user: User, path: string)
    requires PrefixIsFree(r) && TenantUser(user) && Served(r, HomePath(user)) && Located(path) && !IsEntry(path)
    requires !Served(r, path) && TenantFromPath(path).None? && !Cuts(user.tenantId)
    ensures Navigate(r, user, Next(r, user, Next(r, user, path))) == None
  {
    var inside := Scoped(user.tenantId, path);
    ServedHomeHasContext(r, user);
    LandsLocated(user.tenantId, path);
    ScopedContext(user.tenantId, path);
    assert Next(r, user, path) == inside;
    OneFromServedHome(r, user, inside);
  }

  /** If home is served, every path settles. */
  lemma ServedHomeSettles(r: Routes, user: User, path: string)
    requires PrefixIsFree(r) && TenantUser(user) && Served(r, HomePath(user)) && Located(path)
    ensures Navigate(r, user, After(r, user, path, 2)) == None
  {
    AfterTwo(r, user, path);
    if IsEntry(path) {
      ServedHomeSettlesEntry(r, user, path);
    } else if !Served(r, path) {
      if TenantFromPath(path).Some? || Cuts(user.tenantId) {
        ServedHomeSettlesHome(r, user, path);
      } else {
        ServedHomeSettlesInside(r, user, path);
      }
    }
  }

  lemma HomeIsFixed(r: Routes, user: User)
    requires TenantUser(user) && !Served(r, HomePath(user)) && (Cuts(user.tenantId) || user.tenantId[0] != '/')
    ensures Next(r, user, HomePath(user)) == HomePath(user)
  {
    LandsLocated(user.tenantId, "/dashboard");
    LandsLocated(user.tenantId, HomePath(user));
    ScopedContext(user.tenantId, "/dashboard");
  }

  /** A path whose tenant segment is empty. */
  predicate InEmptyTenant(path: string) {
    Located(path) && |path| >= 4 && path[..4] == "/t//"
  }

  /** With an id that starts with a slash, each redirect only makes the path longer. */
  lemma GrowsUnserved(r: Routes, user: User, path: string)
    requires PrefixIsFree(r) && TenantUser(user) && !Cuts(user.tenantId) && user.tenantId[0] == '/' && InEmptyTenant(path)
    ensures !Served(r, path) && !IsEntry(path) && InEmptyTenant(Next(r, user, path))
  {
    EmptyTenantIsNotServed(r, path);
    assert path[1] == 't' && path[2] == '/' && path[3] == '/';
    assert TenantFromPath(path).None?;
    LandsLocated(user.tenantId, path);
  }

  lemma {:induction false} GrowsForEver(r: Routes, user: User, path: string, n: nat)
    requires PrefixIsFree(r) && TenantUser(user) && !Cuts(user.tenantId) && user.tenantId[0] == '/' && InEmptyTenant(path)
    ensures InEmptyTenant(After(r, user, path, n))
  {
    if n > 0 {
      GrowsForEver(r, user, path, n - 1);
      GrowsUnserved(r, user, After(r, user, path, n - 1));
    }
  }

  /** If home is not served, a user who is there never settles. */
  lemma UnservedHomeNeverSettles(r: Routes, user: User, n: nat)
    requires PrefixIsFree(r) && TenantUser(user) && !Served(r, HomePath(user))
    ensures Located(HomePath(user)) && Navigate(r, user, After(r, user, HomePath(user), n)).Some?
  {
    LandsLocated(user.tenantId, "/dashboard");
    if Cuts(user.tenantId) || user.tenantId[0] != '/' {
      HomeIsFixed(r, user);
      SelfRedirectLoops(r, user, HomePath(user), n);
    } else {
      assert HomePath(user)[..4] == "/t//";
      GrowsForEver(r, user, HomePath(user), n);
      GrowsUnserved(r, user, After(r, user, HomePath(user), n));
    }
  }

  /** Every tenant user, whatever the id: each path settles in at most two navigations exactly when
      the user's own dashboard is served where a navigation there lands. */
  lemma SettlesIffHomeServed(r: Routes, user: User)
    requires PrefixIsFree(r) && TenantUser(user)
    ensures (forall path :: Located(path) ==> Navigate(r, user, After(r, user, path, 2)) == None) <==> Served(r, HomePath(user))
  {
    if Served(r, HomePath(user)) {
      forall path | Located(path) ensures Navigate(r, user, After(r, user, path, 2)) == None {
        ServedHomeSettles(r, user, path);
      }
    } else {
      UnservedHomeNeverSettles(r, user, 2);
    }
  }

  const DASHBOARD := "dashboard"

  /** The pieces route a tenant page: all non-empty, and the page after the first takes the rest. */
  predicate Routed(r: Routes, s: seq<string>)
    requires |s| >= 2
  {
    (forall i :: 0 <= i < |s| ==> s[i] != "") && s[1] in r.pages && r.pages[s[1]].least <= |s| - 2 <= r.pages[s[1]].most
  }

  lemma HomePieces(r: Routes, home: string, s: seq<string>)
    requires PrefixIsFree(r) && WithoutTrailing(home) == home && AfterT(home).Some? && |s| >= 2
    requires Split(home, '/') == ["", "t"] + s
    ensures Served(r, home) <==> Routed(r, s)
  {
    var all := ["", "t"] + s;
    assert home !in r.platform;
    assert forall i :: 0 <= i < |s| ==> all[i + 2] == s[i];
    assert forall i :: 2 <= i < |all| ==> all[i] == s[i - 2];
  }

  lemma HomeText(id: string)
    requires id != ""
    ensures var home := Scoped(id, "/" + DASHBOARD);
            && home == Scoped(id, "/dashboard") && WithoutTrailing(home) == home
            && Split(home, '/') == ["", "t"] + (Split(id, '/') + [DASHBOARD])
  {
    var front := "/t/" + id + "/";
    assert Scoped(id, "/" + DASHBOARD) == front + DASHBOARD;
    EndsPlainly(front, DASHBOARD);
    ScopedSplits(id, DASHBOARD);
    SplitWithoutSeparator(DASHBOARD, '/');
  }

  /** Home is served, for an id that is not cut, exactly when every slash-separated piece of it is
      non-empty and the piece after the first, or the dashboard, is a page that takes the rest. */
  lemma HomeServedIff(r: Routes, user: User)
    requires PrefixIsFree(r) && TenantUser(user) && !Cuts(user.tenantId)
    ensures Served(r, HomePath(user)) <==> Routed(r, Split(user.tenantId, '/') + [DASHBOARD])
  {
    HomeText(user.tenantId);
    LandsLocated(user.tenantId, "/dashboard");
    ScopedContext(user.tenantId, "/dashboard");
    HomePieces(r, HomePath(user), Split(user.tenantId, '/') + [DASHBOARD]);
  }

  lemma TwoPartRouted(r: Routes, a: string, b: string)
    requires CleanId(a) && CleanId(b)
    ensures Split(a + "/" + b, '/') + [DASHBOARD] == [a, b, DASHBOARD]
    ensures Routed(r, [a, b, DASHBOARD]) <==> b in r.pages && r.pages[b].least <= 1 <= r.pages[b].most
  {
    SplitWithoutSeparator(a, '/');
    SplitWithoutSeparator(b, '/');
    SplitAtSeparator(a, b, '/');
    assert a + "/" + b == a + ['/'] + b;
  }

  /** A tenant id of two parts settles exactly when the second part is a page that takes one more
      segment: its user then lands on that page of the first part's tenant. */
  lemma TwoPartTenantSettlesIff(r: Routes, user: User, a: string, b: string)
    requires PrefixIsFree(r) && TenantUser(user) && user.tenantId == a + "/" + b && CleanId(a) && CleanId(b)
    ensures (forall path :: Located(path) ==> Navigate(r, user, After(r, user, path, 2)) == None) <==>
            b in r.pages && r.pages[b].least <= 1 <= r.pages[b].most
  {
    SettlesIffHomeServed(r, user);
    TwoPartRouted(r, a, b);
    HomeServedIff(r, user);
  }

  lemma CleanHomeServed(r: Routes, user: User)
    requires HasHomes(r) && PrefixIsFree(r) && TenantUser(user) && '/' !in user.tenantId
    ensures Served(r, HomePath(user)) <==> CleanId(user.tenantId)
  {
    if CleanId(user.tenantId) {
      HomeIsServed(r, user);
      LandsLocated(user.tenantId, "/dashboard");
    } else {
      CutScope(user.tenantId, "/dashboard");
      CutHomeIsNotServed(r, user.tenantId);
    }
  }

  /** A tenant user whose id has no slash settles from every path exactly when the id holds neither
      of the characters a navigation target is cut at. */
  lemma SettlesIffClean(r: Routes, user: User)
    requires HasHomes(r) && PrefixIsFree(r) && TenantUser(user) && '/' !in user.tenantId
    ensures (forall path :: Located(path) ==> Navigate(r, user, After(r, user, path, 2)) == None) <==> CleanId(user.tenantId)
  {
    SettlesIffHomeServed(r, user);
    CleanHomeServed(r, user);
  }

  /** The routes `App.tsx` declares. */
  function DeclaredRoutes(): Routes {
    var plain, item := Extent(0, 0), Extent(0, 1);
    Routes(
      {"/tenants", "/admin", "/admin/billing", "/admin/features", "/admin/releases",
       "/admin/health", "/admin/support-access", "/marketplace"},
      map["dashboard" := plain, "users" := plain, "licenses" := plain, "incidents" := item, "fleet" := item,
          "risk" := plain, "learning" := plain, "autonomy" := plain, "capabilities" := plain, "campaigns" := item,
          "organization" := plain, "access-scope" := plain, "operational-agents" := item, "reliability" := plain,
          "approvals" := Extent(0, 2), "agents" := plain, "policies" := plain, "billing" := plain,
          "invoices" := Extent(1, 1), "usage" := plain, "support" := plain, "audit" := plain,
          "downloads" := plain, "marketplace" := plain])
  }

  lemma DeclaredRoutesHaveHomes()
    ensures HasHomes(DeclaredRoutes()) && PrefixIsFree(DeclaredRoutes())
  {
    forall p | p in DeclaredRoutes().platform ensures p != "/t" && AfterT(p).None? {
      assert p[1] == 'a' || p[1] == 'm' || p[2] == 'e';
      assert |p| > 2;
    }
  }

  /** On them every user with a clean tenant id settles, and a tenant user with a slash-free id from
      every path exactly then. */
  lemma DeclaredRoutesSettle(user: User, path: string)
    ensures KnownUser(user) && Located(path) ==>
              Navigate(DeclaredRoutes(), user, After(DeclaredRoutes(), user, path, 2)) == None
    ensures TenantUser(user) && '/' !in user.tenantId && !CleanId(user.tenantId) ==>
              exists p :: Located(p) && Navigate(DeclaredRoutes(), user, After(DeclaredRoutes(), user, p, 2)) != None
  {
    DeclaredRoutesHaveHomes();
    if KnownUser(user) && Located(path) {
      SettlesInTwo(DeclaredRoutes(), user, path);
    } else if TenantUser(user) && '/' !in user.tenantId {
      SettlesIffClean(DeclaredRoutes(), user);
    }
  }
}
