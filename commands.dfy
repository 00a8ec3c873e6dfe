/** The `op` and `deop` commands: check permission, make at most one role change and say
    exactly one thing. The platform is a log of the calls made to it; the outcome of the one
    role change it is asked for is an input. */
module Commands {
  import opened Wrappers
  import opened Config
  import opened Permission

  /** The user named as the command's argument. */
  datatype Target = Target(id: nat, name: string)

  /** A call the commands make on the platform. */
  datatype Effect = AddRole(user: nat, role: nat) | RemoveRole(user: nat, role: nat) | Say(text: string)

  datatype Command = Op | Deop

  const DENIED: string := "You do not have permission to run this command."
  const FAILED: string := "An error has occurred."

  /** The platform as the commands see it: every call made on it, in order. */
  class Platform {
    var log: seq<Effect>

    constructor ()
      ensures log == []
    {
      log := [];
    }

    /** `Member::add_role`; `accepted` is whether the platform carries it out. */
    method AddRole(user: nat, role: nat, accepted: bool) returns (ok: bool)
      modifies this
      ensures log == old(log) + [Effect.AddRole(user, role)]
      ensures ok == accepted
    {
      log := log + [Effect.AddRole(user, role)];
      ok := accepted;
    }

    /** `Member::remove_role`; `accepted` is whether the platform carries it out. */
    method RemoveRole(user: nat, role: nat, accepted: bool) returns (ok: bool)
      modifies this
      ensures log == old(log) + [Effect.RemoveRole(user, role)]
      ensures ok == accepted
    {
      log := log + [Effect.RemoveRole(user, role)];
      ok := accepted;
    }

    /** `Context::say`. */
    method Say(text: string)
      modifies this
      ensures log == old(log) + [Effect.Say(text)]
    {
      log := log + [Effect.Say(text)];
    }
  }

  predicate IsMutation(e: Effect) {
    e.AddRole? || e.RemoveRole?
  }

  /** The number of role changes among the effects. */
  function Mutations(effects: seq<Effect>): (n: nat)
    ensures n == 0 <==> forall k :: 0 <= k < |effects| ==> !IsMutation(effects[k])
    decreases |effects|
  {
    if effects == [] then 0
    else (if IsMutation(effects[0]) then 1 else 0) + Mutations(effects[1..])
  }

  /** The number of messages among the effects. */
  function Messages(effects: seq<Effect>): (n: nat)
    ensures n == 0 <==> forall k :: 0 <= k < |effects| ==> !effects[k].Say?
    decreases |effects|
  {
    if effects == [] then 0
    else (if effects[0].Say? then 1 else 0) + Messages(effects[1..])
  }

  /** Both counts add up over consecutive stretches of a log, so the counts of a whole
      `Platform.log` are the sums over the commands that wrote it. */
  lemma {:induction false} CountsAdd(a: seq<Effect>, b: seq<Effect>)
    ensures Mutations(a + b) == Mutations(a) + Mutations(b)
    ensures Messages(a + b) == Messages(a) + Messages(b)
    decreases |a|
  {
    if a == [] {
      assert a + b == b;
    } else {
      assert (a + b)[1..] == a[1..] + b;
      CountsAdd(a[1..], b);
    }
  }

  /** The role change a command asks for. */
  function Change(cmd: Command, user: nat, role: nat): Effect {
    match cmd
    case Op => AddRole(user, role)
    case Deop => RemoveRole(user, role)
  }

  /** The message for a role change the platform carried out. */
  function SuccessText(cmd: Command, name: string): string {
    match cmd
    case Op => "Successfully opped " + name
    case Deop => "Successfully de-opped " + name
  }

  /** What one invocation does to the platform, given whether the platform carries out
      the role change. */
  function CommandEffects(cmd: Command, inv: Invocation, cfg: Configuration, target: Target, accepted: bool): seq<Effect> {
    match HasPermission(inv, cfg)
    case Err(_) => []
    case Ok(false) => [Say(DENIED)]
    case Ok(true) =>
      [Change(cmd, target.id, cfg.roleId), Say(if accepted then SuccessText(cmd, target.name) else FAILED)]
  }

  /** `op`: a retrieval failure is returned as the command's error. */
  method RunOp(p: Platform, inv: Invocation, cfg: Configuration, target: Target, accepted: bool)
    returns (r: Result<(), RetrievalError>)
    modifies p
    ensures p.log == old(p.log) + CommandEffects(Op, inv, cfg, target, accepted)
    ensures r.Err? <==> HasPermission(inv, cfg).Err?
    ensures r.Err? ==> r.error == HasPermission(inv, cfg).error
  {
    var permitted := HasPermission(inv, cfg);
    if permitted.Err? {
      return Err(permitted.error);
    }
    if !permitted.value {
      p.Say(DENIED);
      return Ok(());
    }
    var ok := p.AddRole(target.id, cfg.roleId, accepted);
    if ok {
      p.Say("Successfully opped " + target.name);
    } else {
      p.Say(FAILED);
    }
    return Ok(());
  }

  /** `deop`: a retrieval failure is returned as the command's error. */
  method RunDeop(p: Platform, inv: Invocation, cfg: Configuration, target: Target, accepted: bool)
    returns (r: Result<(), RetrievalError>)
    modifies p
    ensures p.log == old(p.log) + CommandEffects(Deop, inv, cfg, target, accepted)
    ensures r.Err? <==> HasPermission(inv, cfg).Err?
    ensures r.Err? ==> r.error == HasPermission(inv, cfg).error
  {
    var permitted := HasPermission(inv, cfg);
    if permitted.Err? {
      return Err(permitted.error);
    }
    if !permitted.value {
      p.Say(DENIED);
      return Ok(());
    }
    var ok := p.RemoveRole(target.id, cfg.roleId, accepted);
    if ok {
      p.Say("Successfully de-opped " + target.name);
    } else {
      p.Say(FAILED);
    }
    return Ok(());
  }

  /** A refusal says the fixed denial text and nothing else, and changes no role. */
  lemma DenialChangesNothing(cmd: Command, inv: Invocation, cfg: Configuration, target: Target, accepted: bool)
    requires HasPermission(inv, cfg) == Ok(false)
    ensures CommandEffects(cmd, inv, cfg, target, accepted) == [Say(DENIED)]
    ensures Mutations(CommandEffects(cmd, inv, cfg, target, accepted)) == 0
  {
  }

  /** A permitted command makes exactly one role change, of this command's kind, on the
      target and with the configured role, and then says whether it was carried out. */
  lemma PermittedChangesOnce(cmd: Command, inv: Invocation, cfg: Configuration, target: Target, accepted: bool)
    requires HasPermission(inv, cfg) == Ok(true)
    ensures var effects := CommandEffects(cmd, inv, cfg, target, accepted);
      && Mutations(effects) == 1
      && |effects| == 2
      && effects[0] == Change(cmd, target.id, cfg.roleId)
      && effects[1] == Say(if accepted then SuccessText(cmd, target.name) else FAILED)
  {
    var effects := CommandEffects(cmd, inv, cfg, target, accepted);
    assert effects[1..][1..] == [];
  }

  /** A retrieval failure says nothing and changes nothing. */
  lemma RetrievalFailureIsSilent(cmd: Command, inv: Invocation, cfg: Configuration, target: Target, accepted: bool)
    requires HasPermission(inv, cfg).Err?
    ensures CommandEffects(cmd, inv, cfg, target, accepted) == []
  {
  }

  /** Every invocation that returns normally says exactly one thing, and a role change
      happens only with permission. */
  lemma OneMessagePerCommand(cmd: Command, inv: Invocation, cfg: Configuration, target: Target, accepted: bool)
    ensures var effects := CommandEffects(cmd, inv, cfg, target, accepted);
      Messages(effects) == (if HasPermission(inv, cfg).Ok? then 1 else 0)
    ensures Mutations(CommandEffects(cmd, inv, cfg, target, accepted)) > 0 ==> HasPermission(inv, cfg) == Ok(true)
  {
    var effects := CommandEffects(cmd, inv, cfg, target, accepted);
    if HasPermission(inv, cfg) == Ok(true) {
      assert effects[1..][1..] == [];
    }
  }

  /** The success message names the target; a failed change gives the generic message. */
  lemma SuccessNamesTarget(cmd: Command, name: string)
    ensures var text := SuccessText(cmd, name);
      && |text| >= |name|
      && text[|text| - |name|..] == name
      && text != FAILED
  {
    var text := SuccessText(cmd, name);
    var prefix := match cmd case Op => "Successfully opped " case Deop => "Successfully de-opped ";
    assert text == prefix + name;
    assert text[0] == prefix[0] == 'S';
    assert FAILED[0] == 'A';
    assert text[|text| - |name|..] == name;
  }

  /** An allow-listed author opping someone: the role is added once and the success
      message follows when the platform carries it out. */
  lemma AllowListedOpScenario(inv: Invocation, cfg: Configuration, target: Target)
    requires inv.member.Some? && inv.member.value.roles.Some?
    requires inv.author in cfg.allowedUsers
    ensures CommandEffects(Op, inv, cfg, target, true)
      == [AddRole(target.id, cfg.roleId), Say("Successfully opped " + target.name)]
    ensures CommandEffects(Op, inv, cfg, target, false)
      == [AddRole(target.id, cfg.roleId), Say(FAILED)]
  {
    AllowListAdmits(inv, cfg);
  }
}
