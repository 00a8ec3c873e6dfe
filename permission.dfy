/** `has_permission`: who may run `op` and `deop`. The platform's answers (the author's
    member record, that member's roles, the guild's roles) are inputs. */
module Permission {
  import opened Wrappers
  import opened Config
  import Text

  /** A guild role: its id and display name. */
  datatype Role = Role(id: nat, name: string)

  /** The author as a guild member; `roles` is `None` when the cache cannot resolve them.
      Roles are compared by id, as the platform's role values are. */
  datatype Member = Member(roles: Option<seq<nat>>)

  /** What one command invocation learns from the platform: the author's user id, the
      author's member record if it can be fetched, and the guild's roles if the command
      runs in a guild (in the platform's iteration order). */
  datatype Invocation = Invocation(author: nat, member: Option<Member>, guild: Option<seq<Role>>)

  /** The two retrieval failures, reported before any check is made. */
  datatype RetrievalError = CouldNotGetMember | CouldNotGetMemberRoles

  /** `Guild::role_by_name`: a role carrying exactly that name (case-sensitive), if any;
      the first in the guild's iteration order. */
  function RoleByName(roles: seq<Role>, name: string): (r: Option<Role>)
    ensures r.Some? ==> r.value in roles && r.value.name == name
    ensures r.None? <==> forall k :: 0 <= k < |roles| ==> roles[k].name != name
    decreases |roles|
  {
    if roles == [] then None
    else if roles[0].name == name then Some(roles[0])
    else RoleByName(roles[1..], name)
  }

  /** The role path: in a guild, the role found under the configured name is one the
      member holds. */
  predicate RolePath(guild: Option<seq<Role>>, name: string, held: seq<nat>) {
    && guild.Some?
    && RoleByName(guild.value, name).Some?
    && RoleByName(guild.value, name).value.id in held
  }

  /** `has_permission`. Fetching the member and then its roles can fail, and does so before
      either check; then the role path is tried, then the allow-list. */
  function HasPermission(inv: Invocation, cfg: Configuration): (r: Result<bool, RetrievalError>)
    ensures inv.member.None? ==> r == Err(CouldNotGetMember)
    ensures inv.member.Some? && inv.member.value.roles.None? ==> r == Err(CouldNotGetMemberRoles)
    ensures r.Err? <==> inv.member.None? || inv.member.value.roles.None?
  {
    match inv.member
    case None => Err(CouldNotGetMember)
    case Some(member) =>
      match member.roles
      case None => Err(CouldNotGetMemberRoles)
      case Some(held) =>
        var byRole :=
          match inv.guild
          case None => false
          case Some(guild) =>
            match RoleByName(guild, cfg.roleName)
            case None => false
            case Some(role) => role.id in held;
        if byRole then Ok(true)
        else if inv.author in cfg.allowedUsers then Ok(true)
        else Ok(false)
  }

  /** The roles the author holds, once both retrievals have succeeded. */
  function Held(inv: Invocation): seq<nat>
    requires inv.member.Some? && inv.member.value.roles.Some?
  {
    inv.member.value.roles.value
  }

  /** Once retrieval succeeds the answer is `Ok(true)` exactly when the role path or the
      allow-list path holds, and `Ok(false)` otherwise. */
  lemma PermissionIsDisjunction(inv: Invocation, cfg: Configuration)
    requires inv.member.Some? && inv.member.value.roles.Some?
    ensures HasPermission(inv, cfg) == Ok(true) <==>
      RolePath(inv.guild, cfg.roleName, Held(inv)) || inv.author in cfg.allowedUsers
    ensures HasPermission(inv, cfg) == Ok(false) <==>
      !RolePath(inv.guild, cfg.roleName, Held(inv)) && inv.author !in cfg.allowedUsers
  {
  }

  /** An allow-listed author is admitted whatever roles they hold, none included, and
      whether or not the command runs in a guild. */
  lemma AllowListAdmits(inv: Invocation, cfg: Configuration)
    requires inv.member.Some? && inv.member.value.roles.Some?
    requires inv.author in cfg.allowedUsers
    ensures HasPermission(inv, cfg) == Ok(true)
  {
  }

  /** Where every guild role with the configured name is the same role, holding a role of
      that name admits the author, whatever the allow-list says. */
  lemma NamedRoleAdmits(inv: Invocation, cfg: Configuration, role: Role)
    requires inv.member.Some? && inv.member.value.roles.Some?
    requires inv.guild.Some? && role in inv.guild.value
    requires role.name == cfg.roleName && role.id in Held(inv)
    requires forall other :: other in inv.guild.value && other.name == cfg.roleName ==> other.id == role.id
    ensures HasPermission(inv, cfg) == Ok(true)
  {
    var found := RoleByName(inv.guild.value, cfg.roleName);
    assert found.None? ==> false by {
      var k :| 0 <= k < |inv.guild.value| && inv.guild.value[k] == role;
    }
    assert found.value.id == role.id;
  }

  /** When no guild role carries the configured name, or there is no guild, the role path
      is simply closed: the decision falls to the allow-list alone. */
  lemma MissingRoleFallsBackToAllowList(inv: Invocation, cfg: Configuration)
    requires inv.member.Some? && inv.member.value.roles.Some?
    requires inv.guild.Some? ==> forall k :: 0 <= k < |inv.guild.value| ==> inv.guild.value[k].name != cfg.roleName
    ensures HasPermission(inv, cfg) == Ok(inv.author in cfg.allowedUsers)
  {
  }

  /** An author who is not allow-listed and holds no guild role of the configured name is
      refused. */
  lemma NeitherPathDenies(inv: Invocation, cfg: Configuration)
    requires inv.member.Some? && inv.member.value.roles.Some?
    requires inv.author !in cfg.allowedUsers
    requires inv.guild.Some? ==> forall k :: 0 <= k < |inv.guild.value| ==>
      inv.guild.value[k].name == cfg.roleName ==> inv.guild.value[k].id !in Held(inv)
    ensures HasPermission(inv, cfg) == Ok(false)
  {
    if inv.guild.Some? {
      var found := RoleByName(inv.guild.value, cfg.roleName);
      if found.Some? {
        var k :| 0 <= k < |inv.guild.value| && inv.guild.value[k] == found.value;
      }
    }
  }

  /** With two guild roles of the configured name only the one the lookup finds counts: a
      member holding the other one is refused. */
  lemma DuplicateNameExample()
    ensures HasPermission(
      Invocation(9, Some(Member(Some([2]))), Some([Role(1, "Operator"), Role(2, "Operator")])),
      Configuration([], "Operator", 1)) == Ok(false)
  {
  }

  /** A user whose id some piece of `ALLOWED_USERS` parses to is admitted under any
      configuration loaded from that environment. */
  lemma AllowListedByEnvironment(env: Env, inv: Invocation, i: nat)
    requires LoadConfig(env).Ok?
    requires inv.member.Some? && inv.member.value.roles.Some?
    requires "ALLOWED_USERS" in env && env["ALLOWED_USERS"].Unicode?
    requires i < |Text.Split(env["ALLOWED_USERS"].text, ',')|
    requires ParsePiece(Text.Split(env["ALLOWED_USERS"].text, ',')[i]) == Some(inv.author)
    ensures HasPermission(inv, LoadConfig(env).value) == Ok(true)
  {
    LoadConfigMeaning(env);
    var _ := AllowListMeaning(env["ALLOWED_USERS"].text, inv.author);
  }
}
