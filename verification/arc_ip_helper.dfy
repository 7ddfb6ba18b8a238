/**
 ArcIpConfig and IpHelper as the objects that they are.  Each method is tied to the step of the same
 name in ArcIp, where the properties of whole runs are proved.
 */
module ArcIpHelper {
  import opened Common
  import opened ArcIp

  // What Clear's two deletions need so that neither of them fails.
  ghost predicate Deletable(chain: seq<Rule>, first: Rule, second: Rule) {
    first in chain && second in RemoveFirst(chain, first)
  }

  lemma {:induction false} AppendedIsDeletable(chain: seq<Rule>, r1: Rule, r2: Rule)
    ensures Deletable(chain + [r1] + [r2], r2, r1)
    decreases |chain|
  {
    var all := chain + [r1] + [r2];
    assert all[|chain|+1] == r2;
    if chain == [] {
      if r1 != r2 { assert all[1..] == [r2]; }
    } else if chain[0] == r2 {
      assert RemoveFirst(all, r2)[|chain|-1] == all[|chain|];
    } else {
      AppendedIsDeletable(chain[1..], r1, r2);
      assert all[1..] == chain[1..] + [r1] + [r2];
    }
  }

  /** ArcIpConfig.  `kernel` is the part of the kernel that its commands act on. */
  class ArcIpConfig {
    const env: Env
    var kernel: Kernel
    var isConfigured: bool
    var current: Config

    constructor (env: Env, kernel: Kernel, current: Config)
      requires kernel.ns == Host
      ensures Valid() && View() == Ip(kernel, false, current) && this.env == env
    {
      this.env, this.kernel, this.isConfigured, this.current := env, kernel, false, current;
    }

    ghost function View(): Ip
      reads this
    {
      Ip(kernel, isConfigured, current)
    }

    // Between calls the process is in the host namespace, and Clear can delete both of its rules.
    ghost predicate Valid()
      reads this
    {
      && kernel.ns == Host
      && (isConfigured ==>
            Deletable(kernel.hostChain, Accept(env.links.intIf, current.lanIf), Accept(current.lanIf, env.links.intIf)))
    }

    method Setns(ns: Namespace)
      modifies `kernel
      ensures kernel == Exec1(old(kernel), SetNs(ns))
    {
      kernel := kernel.(ns := ns);
    }

    method Ip6Add(o: IpObject)
      modifies `kernel
      ensures kernel == Exec1(old(kernel), IpAdd(o))
    {
      kernel := kernel.(objects := kernel.objects + {(kernel.ns, o)});
    }

    method Ip6Del(o: IpObject)
      modifies `kernel
      ensures kernel == Exec1(old(kernel), IpDel(o))
    {
      kernel := kernel.(objects := kernel.objects - {(kernel.ns, o)});
    }

    method AppendRule(r: Rule)
      requires kernel.ns == Host
      modifies `kernel
      ensures kernel == Exec1(old(kernel), RuleAppend(r))
    {
      kernel := kernel.(hostChain := kernel.hostChain + [r]);
    }

    // Deleting a rule that is not there fails, and the source takes that as fatal.
    method DeleteRule(r: Rule)
      requires kernel.ns == Host && r in kernel.hostChain
      modifies `kernel
      ensures kernel == Exec1(old(kernel), RuleDelete(r))
    {
      kernel := kernel.(hostChain := RemoveFirst(kernel.hostChain, r));
    }

    // The host's half of Clear.
    method DetachHost()
      requires Valid() && isConfigured
      modifies `kernel
      ensures kernel == Exec(old(kernel), ClearCommands(env.links, current)[..4]) && kernel.ns == Host
    {
      ClearFirstHalf(kernel, env.links, current);
      DeleteRule(Accept(env.links.intIf, current.lanIf));
      DeleteRule(Accept(current.lanIf, env.links.intIf));
      Ip6Del(Proxy(current.address, current.lanIf));
      Ip6Del(Route(current.address, current.prefixLen, env.links.intIf, MAIN_TABLE));
    }

    // The container's half of Clear.
    method DetachContainer()
      requires kernel.ns == Host
      modifies `kernel
      ensures kernel == Exec(old(kernel), ClearCommands(env.links, current)[4..]) && kernel.ns == Host
    {
      ClearSecondHalf(kernel, env.links, current);
      Setns(Container);
      Ip6Del(DefaultRoute(current.router, env.links.conIf, env.links.table));
      Ip6Del(Route(current.router, 128, env.links.conIf, env.links.table));
      Ip6Del(Address(current.address, current.prefixLen, env.links.conIf));
      Setns(Host);
    }

    method Clear() returns (ok: bool)
      requires Valid()
      modifies this
      ensures Valid() && ok && !isConfigured
      ensures View() == ArcIp.Clear(env, old(View()))
    {
      if !isConfigured {
        return true;
      }
      ghost var cs := ClearCommands(env.links, current);
      ExecSplit(kernel, cs[..4], cs[4..]);
      DetachHost();
      DetachContainer();
      assert cs == cs[..4] + cs[4..];
      isConfigured := false;
      return true;
    }

    // The container's half of Set.
    method AttachContainer()
      requires kernel.ns == Host
      modifies `kernel
      ensures kernel == Exec(old(kernel), SetCommands(env.links, current)[..5]) && kernel.ns == Host
    {
      SetFirstHalf(kernel, env.links, current);
      Setns(Container);
      Ip6Add(Address(current.address, current.prefixLen, env.links.conIf));
      Ip6Add(Route(current.router, 128, env.links.conIf, env.links.table));
      Ip6Add(DefaultRoute(current.router, env.links.conIf, env.links.table));
      Setns(Host);
    }

    // The host's half of Set.
    method AttachHost()
      requires kernel.ns == Host
      modifies `kernel
      ensures kernel == Exec(old(kernel), SetCommands(env.links, current)[5..]) && kernel.ns == Host
      ensures Deletable(kernel.hostChain, Accept(env.links.intIf, current.lanIf), Accept(current.lanIf, env.links.intIf))
    {
      SetSecondHalf(kernel, env.links, current);
      AppendedIsDeletable(kernel.hostChain, Accept(current.lanIf, env.links.intIf), Accept(env.links.intIf, current.lanIf));
      Ip6Add(Route(current.address, current.prefixLen, env.links.intIf, MAIN_TABLE));
      Ip6Add(Proxy(current.address, current.lanIf));
      AppendRule(Accept(current.lanIf, env.links.intIf));
      AppendRule(Accept(env.links.intIf, current.lanIf));
    }

    method Set(c: Config) returns (ok: bool)
      requires Valid()
      modifies this
      ensures Valid() && ok == env.netns
      ensures View() == ArcIp.Set(env, old(View()), c)
    {
      var cleared := Clear();
      if !env.netns {
        return false;
      }
      current := c;
      ghost var cs := SetCommands(env.links, c);
      ExecSplit(kernel, cs[..5], cs[5..]);
      AttachContainer();
      AttachHost();
      assert cs == cs[..5] + cs[5..];
      isConfigured := true;
      return true;
    }
  }

  method ValidateIfname(name: string) returns (ok: bool)
    ensures ok == ValidName(name)
  {
    if |name| >= IFNAMSIZ {
      return false;
    }
    for i := 0 to |name|
      invariant forall j :: 0 <= j < i ==> IsNameChar(name[j])
    {
      if !IsNameChar(name[i]) {
        return false;
      }
    }
    return true;
  }

  /** IpHelper.  `alive` turns false where the source aborts the process. */
  class IpHelper {
    const ip: ArcIpConfig
    var alive: bool
    var initDone: bool
    var tries: nat
    var pending: Message

    constructor (ip: ArcIpConfig)
      requires ip.Valid()
      ensures Valid() && View() == Fresh(ip.View()) && this.ip == ip
    {
      this.ip, alive, initDone, tries, pending := ip, true, false, 0, Unknown;
    }

    ghost predicate Valid()
      reads this, ip
    {
      ip.Valid()
    }

    ghost function View(): Helper
      reads this, ip
    {
      Helper(alive, initDone, tries, pending, ip.View())
    }

    method HandleCommand()
      requires Valid()
      modifies this, ip
      ensures Valid() && View() == ArcIp.HandleCommand(ip.env, old(View()))
    {
      if pending.ClearIp? {
        var _ := ip.Clear();
      } else if pending.SetIp? {
        var c := pending.config;
        var named := ValidateIfname(c.lanIf);
        if !(0 < c.prefixLen <= 128) || !named || |c.address| != 16 || |c.router| != 16 {
          alive := false;
          return;
        }
        var _ := ip.Set(c);
      }
      pending := Unknown;
    }

    method InitialSetup(up: bool)
      requires Valid()
      modifies this, ip
      ensures Valid() && View() == ArcIp.InitialSetup(ip.env, old(View()), up)
    {
      if !up {
        tries := tries + 1;
        alive := tries < MAX_CONTAINER_RETRIES;
        return;
      }
      initDone := true;
      HandleCommand();
    }

    method OnFileCanReadWithoutBlocking(m: Message)
      requires Valid()
      modifies this, ip
      ensures Valid() && View() == ArcIp.OnMessage(ip.env, old(View()), m)
    {
      pending := m;
      if initDone {
        HandleCommand();
      }
    }

    // A process that has aborted does nothing, and the setup task is not posted again once it succeeded.
    method Handle(e: Event)
      requires Valid()
      modifies this, ip
      ensures Valid() && View() == Step(ip.env, old(View()), e)
    {
      if alive {
        match e
        case Arrives(m) => OnFileCanReadWithoutBlocking(m);
        case Setup(up) => if !initDone { InitialSetup(up); }
      }
    }

    /** The process from its start: for any events the objects go through the run of ArcIp.  If every
        message is acceptable and the process is still alive, its rules and routes are those of the
        last command that it acted on. */
    method Drive(es: seq<Event>)
      requires Valid() && View() == Fresh(ip.View()) && !ip.isConfigured
      modifies this, ip
      ensures Valid() && View() == Run(ip.env, old(View()), es)
      ensures alive && AllAcceptable(ip.env, old(ip.kernel), Messages(es)) ==>
                var (done, ms) := Kept(es);
                Outcome(ip.env, old(ip.kernel), if done then LastCommand(ms) else Unknown, ip.View())
    {
      ghost var start, base := ip.View(), ip.kernel;
      for i := 0 to |es|
        invariant Valid() && View() == Run(ip.env, Fresh(start), es[..i])
      {
        assert es[..i+1][..i] == es[..i];
        Handle(es[i]);
      }
      assert es[..|es|] == es;
      if alive && AllAcceptable(ip.env, base, Messages(es)) {
        HelperOutcome(ip.env, base, start, es);
      }
    }
  }
}
