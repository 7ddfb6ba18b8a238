/**
 Manager and helper together: what the manager sends is what the helper accepts, and the kernel ends up
 with a configuration for the LAN interface of the moment, or none.
 */
module ArcNetwork {
  import ArcIp
  import opened ArcManager
  import opened ArcManagerProofs

  // The messages of a trace, in the order sent.
  ghost function Outbox(t: seq<Note>): seq<ArcIp.Message> {
    if t == [] then []
    else Outbox(t[..|t|-1]) + if t[|t|-1].Sent? then [t[|t|-1].m] else []
  }

  ghost predicate NamesValid(t: seq<Note>) {
    forall i :: 0 <= i < |t| && t[i].Bound? ==> ArcIp.ValidName(t[i].ifname)
  }

  ghost predicate InUse(v: View, m: ArcIp.Message) {
    && m != ArcIp.Unknown
    && (m.SetIp? ==> m.config.lanIf == v.lan && v.lan != "")
    && (v.cleared ==> m == ArcIp.ClearIp)
  }

  lemma {:induction false} LanIsValid(t: seq<Note>)
    requires NamesValid(t)
    ensures ArcIp.ValidName(Watch(t).lan)
    decreases |t|
  {
    if t != [] { LanIsValid(t[..|t|-1]); }
  }

  /** Every message holds a command that passes the helper's checks, given valid interface names. */
  lemma {:induction false} OutboxIsValid(t: seq<Note>)
    requires Right(t) && NamesValid(t)
    ensures ArcIp.AllValid(Outbox(t)) && ArcIp.Unknown !in Outbox(t)
    decreases |t|
  {
    if t != [] {
      var p := t[..|t|-1];
      OutboxIsValid(p);
      LanIsValid(p);
    }
  }

  /** The last message, if it is a Set, is for the interface that is current now. */
  lemma {:induction false} LastSetIsCurrent(t: seq<Note>)
    requires Right(t) && Outbox(t) != []
    ensures InUse(Watch(t), Outbox(t)[|Outbox(t)|-1])
    decreases |t|
  {
    var p, x := t[..|t|-1], t[|t|-1];
    if Outbox(p) != [] {
      LastSetIsCurrent(p);
    } else {
      assert x.Sent?;
    }
  }

  /**
   Whole system: for every run of the manager, and every helper that has received what the manager sent
   and whose container has come up, the kernel is the baseline plus exactly what the last message asks for: the
   objects and rules of a Set, which is for the current LAN interface, or nothing after a Clear.  The helper dies
   only of its container.
   */
  lemma {:induction false} KernelFollowsManager(
      env: ArcIp.Env, base: ArcIp.Kernel, ip: ArcIp.Ip,
      address: Address, tries: int, es: seq<Event>, hs: seq<ArcIp.Event>)
    requires base.ns == ArcIp.Host && ip.kernel == base && !ip.configured
    requires NamesValid(Run(Init(address, tries), es).trace)
    requires ArcIp.Messages(hs) == Outbox(Run(Init(address, tries), es).trace)
    requires ArcIp.AllAcceptable(env, base, ArcIp.Messages(hs))
    ensures var h := ArcIp.Run(env, ArcIp.Fresh(ip), hs);
            && (h.alive <==> ArcIp.Failures(hs) < ArcIp.MAX_CONTAINER_RETRIES)
            && (h.alive && h.initDone ==>
                  && ArcIp.SameEffect(h.ip, ArcIp.Eager(env, ip, ArcIp.Messages(hs)))
                  && (var ms := ArcIp.Messages(hs);
                      ArcIp.Outcome(env, base, if ms == [] then ArcIp.ClearIp else ms[|ms|-1], h.ip))
                  && (h.ip.configured ==> h.ip.current.lanIf == Run(Init(address, tries), es).lan != ""))
  {
    var s := Run(Init(address, tries), es);
    var ms := ArcIp.Messages(hs);
    RunKeeps(address, tries, es);
    OutboxIsValid(s.trace);
    ArcIp.AliveIff(env, ip, hs);
    ArcIp.KeptAreValid(hs);
    var h := ArcIp.Run(env, ArcIp.Fresh(ip), hs);
    if h.alive && h.initDone {
      ArcIp.LastCommandWins(env, base, ip, hs);
      ArcIp.HelperOutcome(env, base, ip, hs);
      ArcIp.EagerOutcome(env, base, ip, ms);
      if ms != [] {
        LastSetIsCurrent(s.trace);
        assert ms[|ms|-1] in ms;
      }
    }
  }
}
