/** The server's access-control descriptor builder: from a security mode and a
    pipe direction to no descriptor at all, or an ordered list of Allow rules. */
module Security {
  import opened Platform
  import LogonId

  /** The server's --security-mode values. */
  datatype SecurityMode = Default | CurrentUser | CurrentSession | LocalUsers | Everyone

  /** The System.IO.Pipes.PipeAccessRights members the builder names, as flags;
      their numeric values belong to the .NET library and are not modelled. */
  datatype PipeAccessRight =
    | Read
    | Write
    | ReadPermissions
    | ReadAttributes
    | ReadExtendedAttributes
    | AccessSystemSecurity
    | FullControl

  /** System.Security.AccessControl.AccessControlType. */
  datatype AccessControlType = Allow | Deny

  /** One PipeAccessRule added to the PipeSecurity. */
  datatype PipeAccessRule = PipeAccessRule(identity: Sid, rights: set<PipeAccessRight>, effect: AccessControlType)

  /** The rights granted to the policy's principal on a pipe of the given
      direction. The other end of a pipe this server reads from (In) may write
      to it, the other end of one it writes to (Out) may read it; neither gets
      both, nor full control. A bidirectional pipe is refused. */
  function GetPipeRights(direction: PipeDirection): (r: Result<set<PipeAccessRight>>)
    ensures r.Err? <==> direction == InOut
    ensures r.Err? ==> r.error == NotSupported
    ensures r.Ok? ==> (Write in r.value <==> direction == In) && (Read in r.value <==> direction == Out)
    ensures r.Ok? ==> FullControl !in r.value
    ensures r.Ok? ==> {ReadAttributes, ReadExtendedAttributes, AccessSystemSecurity} <= r.value
  {
    match direction
    case In => Ok({Write, ReadPermissions, ReadAttributes, ReadExtendedAttributes, AccessSystemSecurity})
    case Out => Ok({Read, ReadAttributes, ReadExtendedAttributes, AccessSystemSecurity})
    case InOut => Err(NotSupported)
  }

  /** The exact flag sets of the two one-way directions. */
  lemma PipeRightsByDirection()
    ensures GetPipeRights(In) == Ok({Write, ReadPermissions, ReadAttributes, ReadExtendedAttributes, AccessSystemSecurity})
    ensures GetPipeRights(Out) == Ok({Read, ReadAttributes, ReadExtendedAttributes, AccessSystemSecurity})
  {
  }

  /** A full-control Allow rule. */
  function FullControlRule(identity: Sid): PipeAccessRule {
    PipeAccessRule(identity, {FullControl}, Allow)
  }

  /** The two rules every non-Default descriptor starts with, in this order. */
  function FixedRules(): seq<PipeAccessRule> {
    [FullControlRule(CreatorOwnerSid), FullControlRule(BuiltinAdministratorsSid)]
  }

  /** The principal the mode grants direction rights to, besides the fixed two;
      for CurrentSession that is the resolved logon SID, if any. */
  function PolicyPrincipal(mode: SecurityMode, logonSid: Option<Sid>): Option<Sid> {
    match mode
    case CurrentSession => logonSid
    case LocalUsers => Some(LocalSid)
    case Everyone => Some(WorldSid)
    case _ => None
  }

  /** The logon SID CurrentSession uses: the one of the thread's effective
      token, or else the one of the current identity's token. */
  function SessionLogonSid(threadEffective: LogonId.TokenView, currentIdentity: LogonId.TokenView): Option<Sid> {
    var first := LogonId.LogonSidOf(threadEffective);
    if first.Some? then first else LogonId.LogonSidOf(currentIdentity)
  }

  /** What Security.Get returns, given the logon SID CurrentSession resolves:
      Ok(None) for a null PipeSecurity, Err for the exception it throws. */
  function Descriptor(mode: SecurityMode, direction: PipeDirection, logonSid: Option<Sid>): (r: Result<Option<seq<PipeAccessRule>>>)
    ensures r == Ok(None) <==> mode == Default
    ensures r.Ok? && r.value.Some? ==>
              && 2 <= |r.value.value| <= 3
              && r.value.value[..2] == FixedRules()
    ensures r.Ok? && r.value.Some? ==>
              forall i :: 0 <= i < |r.value.value| ==> r.value.value[i].effect == Allow
    ensures r.Ok? && r.value.Some? && |r.value.value| == 3 ==>
              && Some(r.value.value[2].identity) == PolicyPrincipal(mode, logonSid)
              && FullControl !in r.value.value[2].rights
    ensures r.Err? ==> r.error == NotSupported && direction == InOut
    ensures direction != InOut ==> r.Ok?
  {
    if mode == Default then Ok(None)
    else
      match PolicyPrincipal(mode, logonSid)
      case None => Ok(Some(FixedRules()))
      case Some(identity) =>
        match GetPipeRights(direction)
        case Err(e) => Err(e)
        case Ok(rights) => Ok(Some(FixedRules() + [PipeAccessRule(identity, rights, Allow)]))
  }

  /** Security.Get: the PipeSecurity accumulator filled rule by rule. The
      logon-SID lookups of CurrentSession allocate and free a buffer each. */
  method Get(mode: SecurityMode, direction: PipeDirection,
             threadEffective: LogonId.TokenView, currentIdentity: LogonId.TokenView,
             heap: LogonId.NativeHeap)
    returns (r: Result<Option<seq<PipeAccessRule>>>)
    requires heap.Valid()
    modifies heap
    ensures heap.Valid() && heap.blocks == old(heap.blocks)
    ensures mode != CurrentSession ==> heap.next == old(heap.next)
    ensures mode == CurrentSession ==>
              heap.next == old(heap.next) + (if LogonId.LogonSidOf(threadEffective).Some? then 1 else 2)
    ensures r == Descriptor(mode, direction,
                            if mode == CurrentSession then SessionLogonSid(threadEffective, currentIdentity) else None)
  {
    if mode == Default {
      return Ok(None);
    }
    var res: seq<PipeAccessRule> := [];
    res := res + [FullControlRule(CreatorOwnerSid)];
    res := res + [FullControlRule(BuiltinAdministratorsSid)];
    assert res == FixedRules();
    match mode {
      case CurrentSession =>
        var logonSid := LogonId.Get(threadEffective, heap);
        if logonSid.None? {
          logonSid := LogonId.Get(currentIdentity, heap);
        }
        assert logonSid == SessionLogonSid(threadEffective, currentIdentity);
        if logonSid.Some? {
          var rights := GetPipeRights(direction);
          if rights.Err? {
            return Err(rights.error);
          }
          res := res + [PipeAccessRule(logonSid.value, rights.value, Allow)];
        }
      case LocalUsers =>
        var rights := GetPipeRights(direction);
        if rights.Err? {
          return Err(rights.error);
        }
        res := res + [PipeAccessRule(LocalSid, rights.value, Allow)];
      case Everyone =>
        var rights := GetPipeRights(direction);
        if rights.Err? {
          return Err(rights.error);
        }
        res := res + [PipeAccessRule(WorldSid, rights.value, Allow)];
      case _ =>
    }
    return Ok(Some(res));
  }

  /** CurrentUser has no case of its own in the switch: the two fixed rules and
      nothing else, for every direction, so not even InOut is refused. */
  lemma CurrentUserIsFixedRulesOnly(direction: PipeDirection, logonSid: Option<Sid>)
    ensures Descriptor(CurrentUser, direction, logonSid) == Ok(Some(FixedRules()))
  {
  }

  /** LocalUsers and Everyone add exactly one rule, for the local or the world
      SID, with the direction's rights; a bidirectional pipe throws instead. */
  lemma WellKnownPolicyAddsOneRule(mode: SecurityMode, direction: PipeDirection, logonSid: Option<Sid>)
    requires mode == LocalUsers || mode == Everyone
    ensures var principal := if mode == LocalUsers then LocalSid else WorldSid;
            match GetPipeRights(direction)
            case Ok(rights) => Descriptor(mode, direction, logonSid) == Ok(Some(FixedRules() + [PipeAccessRule(principal, rights, Allow)]))
            case Err(_) => Descriptor(mode, direction, logonSid) == Err(NotSupported)
  {
  }

  /** CurrentSession with a resolved logon SID grants it the direction's rights;
      a bidirectional pipe throws instead. */
  lemma CurrentSessionGrantsLogonSid(direction: PipeDirection, logonSid: Sid)
    ensures match GetPipeRights(direction)
            case Ok(rights) => Descriptor(CurrentSession, direction, Some(logonSid)) ==
                                 Ok(Some(FixedRules() + [PipeAccessRule(logonSid, rights, Allow)]))
            case Err(_) => Descriptor(CurrentSession, direction, Some(logonSid)) == Err(NotSupported)
  {
  }

  /** CurrentSession with no logon SID silently degrades to CurrentUser: the
      owner and administrators only, no error, even for a bidirectional pipe. */
  lemma CurrentSessionUnresolvedIsCurrentUser(direction: PipeDirection, logonSid: Option<Sid>)
    ensures Descriptor(CurrentSession, direction, None) == Descriptor(CurrentUser, direction, logonSid)
    ensures Descriptor(CurrentSession, direction, None).Ok?
  {
  }

  /** When neither token yields a logon SID, Security.Get for CurrentSession
      returns the fixed rules alone. */
  lemma SessionLookupFailureDegrades(direction: PipeDirection,
                                     threadEffective: LogonId.TokenView, currentIdentity: LogonId.TokenView)
    requires LogonId.LogonSidOf(threadEffective).None? && LogonId.LogonSidOf(currentIdentity).None?
    ensures Descriptor(CurrentSession, direction, SessionLogonSid(threadEffective, currentIdentity)) == Ok(Some(FixedRules()))
  {
  }

  /** The thread's effective token wins over the current identity's token. */
  lemma SessionLogonSidPrefersThreadToken(threadEffective: LogonId.TokenView, currentIdentity: LogonId.TokenView)
    ensures LogonId.LogonSidOf(threadEffective).Some? ==>
              SessionLogonSid(threadEffective, currentIdentity) == LogonId.LogonSidOf(threadEffective)
    ensures LogonId.LogonSidOf(threadEffective).None? ==>
              SessionLogonSid(threadEffective, currentIdentity) == LogonId.LogonSidOf(currentIdentity)
    ensures SessionLogonSid(threadEffective, currentIdentity).Some? <==>
              LogonId.LogonSidOf(threadEffective).Some? || LogonId.LogonSidOf(currentIdentity).Some?
  {
  }

  /** Everyone on an outbound pipe: the owner and the administrators with full
      control and the world with read rights; no other principal, and the world
      may not write. */
  lemma EveryoneOutboundPrincipals(logonSid: Option<Sid>)
    ensures var r := Descriptor(Everyone, Out, logonSid);
            && r.Ok? && r.value.Some?
            && (set rule | rule in r.value.value :: rule.identity) == {CreatorOwnerSid, BuiltinAdministratorsSid, WorldSid}
            && r.value.value[2].identity == WorldSid
            && Read in r.value.value[2].rights && Write !in r.value.value[2].rights
  {
    var rules := Descriptor(Everyone, Out, logonSid).value.value;
    assert rules == [FullControlRule(CreatorOwnerSid), FullControlRule(BuiltinAdministratorsSid),
                     PipeAccessRule(WorldSid, {Read, ReadAttributes, ReadExtendedAttributes, AccessSystemSecurity}, Allow)];
    assert rules[0] in rules && rules[1] in rules && rules[2] in rules;
  }
}
