/** Who may see what in the clinic panel: the layout's `hasPermission`,
    the navigation filter built on it, and the `canManage` flag each page
    derives from `/auth/me`. */
module Access {
  import opened Values
  import opened Lists

  /** The `/auth/me` answer; `role` and `permissions` may be null. */
  datatype Me = Me(role: Option<string>, permissions: Option<seq<string>>)

  /** `user?.permissions ?? []` (and `me.permissions ?? []`). */
  function Held(user: Option<Me>): seq<string> {
    if user.Some? then user.value.permissions.GetOr([]) else []
  }

  /** `user?.role === "admin"`. */
  predicate IsAdmin(user: Option<Me>) {
    user.Some? && user.value.role == Some("admin")
  }

  /** A navigation item's `permission`: absent, one name, or a list of
      names any one of which suffices. */
  datatype Requirement = Open | Needs(name: string) | AnyOf(names: seq<string>)

  /** `!permission`: absent, or the empty string. An empty list is an
      object and so truthy. */
  predicate Unrestricted(req: Requirement) {
    req.Open? || req == Needs("")
  }

  /** The names a requirement lists. */
  function Listed(req: Requirement): seq<string> {
    match req
    case Open => []
    case Needs(p) => [p]
    case AnyOf(ps) => ps
  }

  /** `hasPermission` of the panel layout. */
  predicate HasPermission(user: Option<Me>, req: Requirement)
  {
    if Unrestricted(req) then true
    else if IsAdmin(user) then true
    else if "*" in Held(user) then true
    else match req
      case AnyOf(ps) => exists p :: p in ps && p in Held(user)
      case Needs(p) => p in Held(user)
      case Open => true
  }

  /** The same decision stated on sets: a requirement is met when it is
      unrestricted, when the user is an administrator or holds the
      wildcard, or when the user holds one of the names it lists. */
  lemma HasPermissionMeaning(user: Option<Me>, req: Requirement)
    ensures HasPermission(user, req) <==>
      || Unrestricted(req)
      || IsAdmin(user)
      || "*" in Held(user)
      || exists p :: p in Listed(req) && p in Held(user)
  {
  }

  /** A user whose permission list grew by `extra`. */
  function Grant(user: Me, extra: seq<string>): (r: Me)
    ensures r.role == user.role
    ensures forall p :: p in Held(Some(r)) <==> p in Held(Some(user)) || p in extra
  {
    user.(permissions := Some(Held(Some(user)) + extra))
  }

  /** More permissions never hide an item that was shown. */
  lemma GrantMonotone(user: Me, extra: seq<string>, req: Requirement)
    requires HasPermission(Some(user), req)
    ensures HasPermission(Some(Grant(user, extra)), req)
  {
    HasPermissionMeaning(Some(user), req);
    HasPermissionMeaning(Some(Grant(user, extra)), req);
  }

  /** Before `/auth/me` answers (or after it fails) every item that names
      a permission is hidden. */
  lemma NoUserDenied(req: Requirement)
    requires !Unrestricted(req)
    ensures !HasPermission(None, req)
  {
  }

  /** An administrator, or a holder of `*`, sees everything. */
  lemma SuperUserAllowed(user: Option<Me>, req: Requirement)
    requires IsAdmin(user) || "*" in Held(user)
    ensures HasPermission(user, req)
  {
  }

  /** A navigation entry. */
  datatype NavItem = NavItem(title: string, href: string, permission: Requirement)

  /** `navItems`, in order. */
  function NavItems(): (r: seq<NavItem>)
    ensures |r| == 10
  {
    [ NavItem("Dashboard", "/empresa", Open),
      NavItem("Pacientes", "/empresa/pacientes", Needs("patients:manage")),
      NavItem("Avaliacoes", "/empresa/avaliacoes", Needs("patients:manage")),
      NavItem("Profissionais", "/empresa/profissionais", Needs("professionals:manage")),
      NavItem("Servicos", "/empresa/servicos", Open),
      NavItem("Agenda", "/empresa/agenda", AnyOf(["agenda:view_own", "agenda:view_all"])),
      NavItem("Agendamentos", "/empresa/agendamentos", Needs("appointments:manage")),
      NavItem("Financeiro", "/empresa/financeiro", Needs("payments:manage")),
      NavItem("Configuracoes", "/empresa/configuracoes", Needs("settings:manage")),
      NavItem("Usuarios", "/empresa/usuarios", Needs("users:manage")) ]
  }

  const LoginItem: NavItem := NavItem("Login", "/empresa/login", Open)

  /** The entries of `items` the user may see, in order:
      `items.filter(item => !item.permission || hasPermission(item.permission))`. */
  function Visible(items: seq<NavItem>, user: Option<Me>): (r: seq<NavItem>)
    ensures forall item :: item in r <==> item in items && HasPermission(user, item.permission)
    ensures |r| <= |items|
  {
    Filter(items, (item: NavItem) => Unrestricted(item.permission) || HasPermission(user, item.permission))
  }

  function VisibleTest(user: Option<Me>): NavItem -> bool {
    (item: NavItem) => Unrestricted(item.permission) || HasPermission(user, item.permission)
  }

  /** The menu lists the permitted entries in `navItems` order, each as often
      as the list holds it. */
  lemma VisibleInOrder(items: seq<NavItem>, user: Option<Me>)
    ensures Subsequence(Visible(items, user), items)
    ensures forall item ::
      multiset(Visible(items, user))[item]
        == if HasPermission(user, item.permission) then multiset(items)[item] else 0
  {
    var keep := VisibleTest(user);
    assert Visible(items, user) == Filter(items, keep);
    FilterInOrder(items, keep);
    forall item: NavItem
      ensures multiset(Filter(items, keep))[item] == if keep(item) then multiset(items)[item] else 0
    {
      FilterCounts(items, keep, item);
    }
  }

  /** The side navigation: the visible part of `navItems` when logged in,
      otherwise only the public login entry. */
  function Navigation(loggedIn: bool, user: Option<Me>): (r: seq<NavItem>)
    ensures !loggedIn ==> r == [LoginItem]
    ensures loggedIn ==> r == Visible(NavItems(), user)
  {
    if loggedIn then Visible(NavItems(), user) else [LoginItem]
  }

  /** Without an identified user only the entries that name no permission
      show. */
  lemma VisibleWithoutUser(items: seq<NavItem>, item: NavItem)
    ensures item in Visible(items, None) <==> item in items && Unrestricted(item.permission)
  {
  }

  /** An administrator or a holder of `*` sees every entry, in order. */
  lemma VisibleToSuperUser(items: seq<NavItem>, user: Option<Me>)
    requires IsAdmin(user) || "*" in Held(user)
    ensures Visible(items, user) == items
  {
    FilterAll(items, (item: NavItem) => Unrestricted(item.permission) || HasPermission(user, item.permission));
  }

  /** `isAdmin || permissions.includes("*") || permissions.includes(name)`,
      the `canManage` flag of the pages. */
  predicate CanManage(me: Me, name: string) {
    me.role == Some("admin") || "*" in Held(Some(me)) || name in Held(Some(me))
  }

  /** A page's `canManage` agrees with the layout's check of the same
      permission name. */
  lemma CanManageIsHasPermission(me: Me, name: string)
    requires name != ""
    ensures CanManage(me, name) <==> HasPermission(Some(me), Needs(name))
  {
  }
}
