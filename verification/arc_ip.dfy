/**
 arc-networkd's helper process: ArcIpConfig, which puts an IPv6 address with its routes and
 forwarding rules into the kernel and takes them out again, and IpHelper, which keeps only the most
 recent command while the container is still coming up.
 */
module ArcIp {
  import opened Common

  datatype Namespace = Host | Container

  // The objects that `ip` and `ip6tables` commands add and remove.
  datatype IpObject =
    | Address(address: seq<int>, prefixLen: int, dev: string)
    | Route(destination: seq<int>, prefixLen: int, dev: string, table: int)
    | DefaultRoute(via: seq<int>, dev: string, table: int)
    | Proxy(neighbor: seq<int>, dev: string)

  datatype Rule = Accept(input: string, output: string)   // -A FORWARD -i input -o output -j ACCEPT

  const MAIN_TABLE := 254
  const IFNAMSIZ: nat := 16
  const MAX_CONTAINER_RETRIES: nat := 60

  // `ns` is the namespace that the process is in; commands run there.
  datatype Kernel = Kernel(ns: Namespace, objects: set<(Namespace, IpObject)>, hostChain: seq<Rule>, containerChain: seq<Rule>)

  datatype Command =
    | SetNs(ns: Namespace)
    | IpAdd(o: IpObject)
    | IpDel(o: IpObject)
    | RuleAppend(r: Rule)
    | RuleDelete(r: Rule)

  function RemoveFirst(chain: seq<Rule>, r: Rule): seq<Rule> {
    if chain == [] then [] else if chain[0] == r then chain[1..] else [chain[0]] + RemoveFirst(chain[1..], r)
  }

  /** One command.  Adding what is there and removing what is not changes nothing. */
  function Exec1(k: Kernel, c: Command): Kernel {
    match c
    case SetNs(ns) => k.(ns := ns)
    case IpAdd(o) => k.(objects := k.objects + {(k.ns, o)})
    case IpDel(o) => k.(objects := k.objects - {(k.ns, o)})
    case RuleAppend(r) =>
      if k.ns == Host then k.(hostChain := k.hostChain + [r]) else k.(containerChain := k.containerChain + [r])
    case RuleDelete(r) =>
      if k.ns == Host then k.(hostChain := RemoveFirst(k.hostChain, r))
      else k.(containerChain := RemoveFirst(k.containerChain, r))
  }

  function Exec(k: Kernel, cs: seq<Command>): Kernel
    decreases |cs|
  {
    if cs == [] then k else Exec(Exec1(k, cs[0]), cs[1..])
  }

  // --- what Set puts in and Clear takes out ---

  datatype Links = Links(intIf: string, conIf: string, table: int)
  datatype Config = Config(address: seq<int>, prefixLen: int, router: seq<int>, lanIf: string)

  function SetCommands(l: Links, c: Config): seq<Command> {
    [ SetNs(Container),
      IpAdd(Address(c.address, c.prefixLen, l.conIf)),
      IpAdd(Route(c.router, 128, l.conIf, l.table)),
      IpAdd(DefaultRoute(c.router, l.conIf, l.table)),
      SetNs(Host),
      IpAdd(Route(c.address, c.prefixLen, l.intIf, MAIN_TABLE)),
      IpAdd(Proxy(c.address, c.lanIf)),
      RuleAppend(Accept(c.lanIf, l.intIf)),
      RuleAppend(Accept(l.intIf, c.lanIf)) ]
  }

  function ClearCommands(l: Links, c: Config): seq<Command> {
    [ RuleDelete(Accept(l.intIf, c.lanIf)),
      RuleDelete(Accept(c.lanIf, l.intIf)),
      IpDel(Proxy(c.address, c.lanIf)),
      IpDel(Route(c.address, c.prefixLen, l.intIf, MAIN_TABLE)),
      SetNs(Container),
      IpDel(DefaultRoute(c.router, l.conIf, l.table)),
      IpDel(Route(c.router, 128, l.conIf, l.table)),
      IpDel(Address(c.address, c.prefixLen, l.conIf)),
      SetNs(Host) ]
  }

  // What a configuration owns in the kernel.
  ghost function Objects(l: Links, c: Config): set<(Namespace, IpObject)> {
    { (Container, Address(c.address, c.prefixLen, l.conIf)),
      (Container, Route(c.router, 128, l.conIf, l.table)),
      (Container, DefaultRoute(c.router, l.conIf, l.table)),
      (Host, Route(c.address, c.prefixLen, l.intIf, MAIN_TABLE)),
      (Host, Proxy(c.address, c.lanIf)) }
  }

  ghost function Rules(l: Links, c: Config): seq<Rule> { [Accept(c.lanIf, l.intIf), Accept(l.intIf, c.lanIf)] }

  // The configuration shares nothing with what was there before.
  ghost predicate Separate(base: Kernel, l: Links, c: Config) {
    base.objects !! Objects(l, c) && forall r :: r in Rules(l, c) ==> r !in base.hostChain
  }

  // The kernel as it was, plus one configuration.
  ghost function With(base: Kernel, l: Links, c: Config): Kernel {
    base.(objects := base.objects + Objects(l, c), hostChain := base.hostChain + Rules(l, c))
  }

  /** Set adds exactly its own objects and rules, and ends in the host namespace. */
  lemma SetAdds(base: Kernel, l: Links, c: Config)
    requires base.ns == Host
    ensures Exec(base, SetCommands(l, c)) == With(base, l, c)
  {
    var cs := SetCommands(l, c);
    ExecSplit(base, cs[..5], cs[5..]);
    assert cs == cs[..5] + cs[5..];
    var mid := Exec(base, cs[..5]);
    SetFirstHalf(base, l, c);
    SetSecondHalf(mid, l, c);
    assert Exec(base, cs).objects == With(base, l, c).objects;
    assert Exec(base, cs).hostChain == With(base, l, c).hostChain;
  }

  lemma SetFirstHalf(base: Kernel, l: Links, c: Config)
    requires base.ns == Host
    ensures Exec(base, SetCommands(l, c)[..5]) ==
            base.(objects := base.objects + {(Container, Address(c.address, c.prefixLen, l.conIf))}
                             + {(Container, Route(c.router, 128, l.conIf, l.table))}
                             + {(Container, DefaultRoute(c.router, l.conIf, l.table))})
  {
    var k0 := Exec1(base, SetNs(Container));
    var k1 := Exec1(k0, IpAdd(Address(c.address, c.prefixLen, l.conIf)));
    var k2 := Exec1(k1, IpAdd(Route(c.router, 128, l.conIf, l.table)));
    var k3 := Exec1(k2, IpAdd(DefaultRoute(c.router, l.conIf, l.table)));
    var cs := SetCommands(l, c)[..5];
    ExecOne(base, cs); ExecOne(k0, cs[1..]); ExecOne(k1, cs[2..]); ExecOne(k2, cs[3..]); ExecOne(k3, cs[4..]);
  }

  lemma SetSecondHalf(k: Kernel, l: Links, c: Config)
    requires k.ns == Host
    ensures Exec(k, SetCommands(l, c)[5..]) ==
            k.(objects := k.objects + {(Host, Route(c.address, c.prefixLen, l.intIf, MAIN_TABLE))} + {(Host, Proxy(c.address, c.lanIf))},
               hostChain := k.hostChain + [Accept(c.lanIf, l.intIf)] + [Accept(l.intIf, c.lanIf)])
  {
    var k0 := Exec1(k, IpAdd(Route(c.address, c.prefixLen, l.intIf, MAIN_TABLE)));
    var k1 := Exec1(k0, IpAdd(Proxy(c.address, c.lanIf)));
    var k2 := Exec1(k1, RuleAppend(Accept(c.lanIf, l.intIf)));
    var cs := SetCommands(l, c)[5..];
    ExecOne(k, cs); ExecOne(k0, cs[1..]); ExecOne(k1, cs[2..]); ExecOne(k2, cs[3..]);
  }

  lemma ExecOne(k: Kernel, cs: seq<Command>)
    requires cs != []
    ensures Exec(k, cs) == Exec(Exec1(k, cs[0]), cs[1..])
    ensures forall n :: 0 <= n <= |cs| - 1 ==> cs[1..][n..] == cs[n+1..]
  {
  }

  lemma {:induction false} ExecSplit(k: Kernel, cs: seq<Command>, ds: seq<Command>)
    ensures Exec(k, cs + ds) == Exec(Exec(k, cs), ds)
    decreases |cs|
  {
    if cs == [] { assert cs + ds == ds; }
    else {
      assert (cs + ds)[1..] == cs[1..] + ds;
      ExecSplit(Exec1(k, cs[0]), cs[1..], ds);
    }
  }

  lemma {:induction false} RemoveOwn(chain: seq<Rule>, r: Rule, rest: seq<Rule>)
    requires r !in chain
    ensures RemoveFirst(chain + [r] + rest, r) == chain + rest
    decreases |chain|
  {
    if chain == [] {
      assert chain + [r] + rest == [r] + rest && chain + rest == rest;
    } else {
      RemoveOwn(chain[1..], r, rest);
      assert (chain + [r] + rest)[1..] == chain[1..] + [r] + rest;
    }
  }

  /** Clear takes out exactly what Set put in. */
  lemma ClearRemoves(base: Kernel, l: Links, c: Config)
    requires base.ns == Host && Separate(base, l, c)
    ensures Exec(With(base, l, c), ClearCommands(l, c)) == base
  {
    var k := With(base, l, c);
    var r1, r2 := Accept(c.lanIf, l.intIf), Accept(l.intIf, c.lanIf);
    assert r1 in Rules(l, c) && r2 in Rules(l, c);
    RulesRemoved(base.hostChain, r1, r2);
    var cs := ClearCommands(l, c);
    ExecSplit(k, cs[..4], cs[4..]);
    assert cs == cs[..4] + cs[4..];
    var mid := Exec(k, cs[..4]);
    ClearFirstHalf(k, l, c);
    ClearSecondHalf(mid, l, c);
    assert Exec(k, cs).objects == base.objects;
  }

  lemma RulesRemoved(chain: seq<Rule>, r1: Rule, r2: Rule)
    requires r1 !in chain && r2 !in chain
    ensures RemoveFirst(RemoveFirst(chain + [r1, r2], r2), r1) == chain
  {
    if r1 == r2 {
      RemoveOwn(chain, r1, [r1]);
      assert chain + [r1, r2] == chain + [r1] + [r1];
    } else {
      RemoveOwn(chain + [r1], r2, []);
      assert chain + [r1, r2] == chain + [r1] + [r2] + [] && chain + [r1] + [] == chain + [r1];
    }
    RemoveOwn(chain, r1, []);
    assert chain + [r1] + [] == chain + [r1] && chain + [] == chain;
  }

  lemma ClearFirstHalf(k: Kernel, l: Links, c: Config)
    requires k.ns == Host
    ensures Exec(k, ClearCommands(l, c)[..4]) ==
            k.(hostChain := RemoveFirst(RemoveFirst(k.hostChain, Accept(l.intIf, c.lanIf)), Accept(c.lanIf, l.intIf)),
               objects := k.objects - {(Host, Proxy(c.address, c.lanIf))} - {(Host, Route(c.address, c.prefixLen, l.intIf, MAIN_TABLE))})
  {
    var k0 := Exec1(k, RuleDelete(Accept(l.intIf, c.lanIf)));
    var k1 := Exec1(k0, RuleDelete(Accept(c.lanIf, l.intIf)));
    var k2 := Exec1(k1, IpDel(Proxy(c.address, c.lanIf)));
    var cs := ClearCommands(l, c)[..4];
    ExecOne(k, cs); ExecOne(k0, cs[1..]); ExecOne(k1, cs[2..]); ExecOne(k2, cs[3..]);
  }

  lemma ClearSecondHalf(k: Kernel, l: Links, c: Config)
    requires k.ns == Host
    ensures Exec(k, ClearCommands(l, c)[4..]) ==
            k.(objects := k.objects - {(Container, DefaultRoute(c.router, l.conIf, l.table))}
                          - {(Container, Route(c.router, 128, l.conIf, l.table))}
                          - {(Container, Address(c.address, c.prefixLen, l.conIf))})
  {
    var k0 := Exec1(k, SetNs(Container));
    var k1 := Exec1(k0, IpDel(DefaultRoute(c.router, l.conIf, l.table)));
    var k2 := Exec1(k1, IpDel(Route(c.router, 128, l.conIf, l.table)));
    var k3 := Exec1(k2, IpDel(Address(c.address, c.prefixLen, l.conIf)));
    var cs := ClearCommands(l, c)[4..];
    ExecOne(k, cs); ExecOne(k0, cs[1..]); ExecOne(k1, cs[2..]); ExecOne(k2, cs[3..]); ExecOne(k3, cs[4..]);
  }

  // --- ArcIpConfig's own state ---

  // What does not change while the helper runs: the names, the table that Android uses for them, and
  // whether a container namespace was given at all.
  datatype Env = Env(links: Links, netns: bool)

  datatype Ip = Ip(kernel: Kernel, configured: bool, current: Config)

  function Clear(env: Env, s: Ip): Ip {
    if s.configured then s.(kernel := Exec(s.kernel, ClearCommands(env.links, s.current)), configured := false) else s
  }

  function Set(env: Env, s: Ip, c: Config): Ip {
    var t := Clear(env, s);
    if env.netns then Ip(Exec(t.kernel, SetCommands(env.links, c)), true, c) else t
  }

  // The kernel is the baseline plus the current configuration if there is one, and the process is in
  // the host namespace.
  ghost predicate Synced(env: Env, base: Kernel, s: Ip) {
    && base.ns == Host
    && (s.configured ==> env.netns && Separate(base, env.links, s.current))
    && s.kernel == if s.configured then With(base, env.links, s.current) else base
  }

  lemma ClearSynced(env: Env, base: Kernel, s: Ip)
    requires Synced(env, base, s)
    ensures Synced(env, base, Clear(env, s)) && !Clear(env, s).configured && Clear(env, s).kernel == base
  {
    if s.configured { ClearRemoves(base, env.links, s.current); }
  }

  lemma SetSynced(env: Env, base: Kernel, s: Ip, c: Config)
    requires Synced(env, base, s) && Separate(base, env.links, c)
    ensures Synced(env, base, Set(env, s, c)) && Set(env, s, c).configured == env.netns
    ensures env.netns ==> Set(env, s, c).current == c
  {
    ClearSynced(env, base, s);
    SetAdds(base, env.links, c);
  }

  // --- messages ---

  // Unknown stands for a message that holds neither command.
  datatype Message = Unknown | ClearIp | SetIp(config: Config)

  predicate ValidName(name: string) {
    |name| < IFNAMSIZ && forall i :: 0 <= i < |name| ==> IsNameChar(name[i])
  }

  predicate ValidConfig(c: Config) {
    0 < c.prefixLen <= 128 && ValidName(c.lanIf) && |c.address| == 16 && |c.router| == 16
  }

  predicate ValidMessage(m: Message) { m.SetIp? ==> ValidConfig(m.config) }

  // One command run at once.
  function Apply(env: Env, s: Ip, m: Message): Ip {
    match m
    case Unknown => s
    case ClearIp => Clear(env, s)
    case SetIp(c) => Set(env, s, c)
  }

  // Every command run in arrival order.
  function Eager(env: Env, s: Ip, ms: seq<Message>): Ip {
    if ms == [] then s else Apply(env, Eager(env, s, ms[..|ms|-1]), ms[|ms|-1])
  }

  // The last message that holds a command.
  function LastCommand(ms: seq<Message>): Message {
    if ms == [] then Unknown
    else if ms[|ms|-1] != Unknown then ms[|ms|-1]
    else LastCommand(ms[..|ms|-1])
  }

  // What one command leaves behind, started from the baseline.
  ghost predicate Outcome(env: Env, base: Kernel, m: Message, s: Ip) {
    && s.configured == (env.netns && m.SetIp?)
    && (s.configured ==> s.current == m.config)
    && s.kernel == if s.configured then With(base, env.links, m.config) else base
  }

  // A message whose configuration, if any, is well formed and shares nothing with the baseline.
  ghost predicate Acceptable(env: Env, base: Kernel, m: Message) {
    ValidMessage(m) && (m.SetIp? ==> Separate(base, env.links, m.config))
  }

  ghost predicate AllAcceptable(env: Env, base: Kernel, ms: seq<Message>) {
    forall i :: 0 <= i < |ms| ==> Acceptable(env, base, ms[i])
  }

  /** Running commands in order leaves exactly what the last of them asks for. */
  lemma {:induction false} EagerOutcome(env: Env, base: Kernel, s: Ip, ms: seq<Message>)
    requires base.ns == Host && s.kernel == base && !s.configured && AllAcceptable(env, base, ms)
    ensures Synced(env, base, Eager(env, s, ms))
    ensures Outcome(env, base, LastCommand(ms), Eager(env, s, ms))
    decreases |ms|
  {
    if ms != [] {
      var prev, m := ms[..|ms|-1], ms[|ms|-1];
      EagerOutcome(env, base, s, prev);
      assert Acceptable(env, base, m);
      if m == ClearIp { ClearSynced(env, base, Eager(env, s, prev)); }
      else if m.SetIp? { SetSynced(env, base, Eager(env, s, prev), m.config); }
    }
  }

  // --- IpHelper ---

  datatype Helper = Helper(alive: bool, initDone: bool, tries: nat, pending: Message, ip: Ip)

  datatype Event =
    | Arrives(m: Message)
    | Setup(up: bool)       // the posted InitialSetup task runs; `up` is what ContainerInit returns

  function Fresh(s: Ip): Helper { Helper(true, false, 0, Unknown, s) }

  function HandleCommand(env: Env, h: Helper): Helper {
    if ValidMessage(h.pending) then h.(ip := Apply(env, h.ip, h.pending), pending := Unknown) else h.(alive := false)
  }

  function InitialSetup(env: Env, h: Helper, up: bool): Helper {
    if up then HandleCommand(env, h.(initDone := true))
    else h.(tries := h.tries + 1, alive := h.tries + 1 < MAX_CONTAINER_RETRIES)
  }

  function OnMessage(env: Env, h: Helper, m: Message): Helper {
    if h.initDone then HandleCommand(env, h.(pending := m)) else h.(pending := m)
  }

  // A dead helper does nothing, and no setup task is left once one has succeeded.
  function Step(env: Env, h: Helper, e: Event): Helper {
    if !h.alive then h
    else match e
      case Arrives(m) => OnMessage(env, h, m)
      case Setup(up) => if h.initDone then h else InitialSetup(env, h, up)
  }

  function Run(env: Env, h: Helper, es: seq<Event>): Helper {
    if es == [] then h else Step(env, Run(env, h, es[..|es|-1]), es[|es|-1])
  }

  function Messages(es: seq<Event>): seq<Message> {
    if es == [] then []
    else Messages(es[..|es|-1]) + if es[|es|-1].Arrives? then [es[|es|-1].m] else []
  }

  // The messages that are ever run: of those before the setup succeeds only the last, and all later ones.
  function Kept(es: seq<Event>): (bool, seq<Message>) {
    if es == [] then (false, [])
    else
      var (done, ms) := Kept(es[..|es|-1]);
      match es[|es|-1]
      case Arrives(m) => (done, if done then ms + [m] else [m])
      case Setup(up) => (done || up, ms)
  }

  lemma EagerSnoc(env: Env, s: Ip, ms: seq<Message>, m: Message)
    ensures Eager(env, s, ms + [m]) == Apply(env, Eager(env, s, ms), m)
    ensures LastCommand(ms + [m]) == if m == Unknown then LastCommand(ms) else m
  {
    assert (ms + [m])[..|ms|] == ms;
  }

  lemma {:induction false} MessagesPrefix(env: Env, base: Kernel, es: seq<Event>)
    requires AllAcceptable(env, base, Messages(es)) && es != []
    ensures AllAcceptable(env, base, Messages(es[..|es|-1]))
    ensures es[|es|-1].Arrives? ==> Acceptable(env, base, es[|es|-1].m)
  {
    var prev := Messages(es[..|es|-1]);
    forall i | 0 <= i < |prev| ensures Acceptable(env, base, prev[i]) {
      assert Messages(es)[i] == prev[i];
    }
    if es[|es|-1].Arrives? { assert Messages(es)[|prev|] == es[|es|-1].m; }
  }

  // What a live helper has done so far.
  ghost predicate Keeping(env: Env, s: Ip, h: Helper, done: bool, ms: seq<Message>) {
    && h.initDone == done
    && (done ==> h.pending == Unknown && h.ip == Eager(env, s, ms))
    && (!done ==> h.ip == s && (ms == [] ==> h.pending == Unknown) && (ms != [] ==> ms == [h.pending]))
  }

  /** A live helper has run exactly the kept messages, in order. */
  lemma {:induction false} RunKeeps(env: Env, base: Kernel, s: Ip, es: seq<Event>)
    requires AllAcceptable(env, base, Messages(es)) && Run(env, Fresh(s), es).alive
    ensures Keeping(env, s, Run(env, Fresh(s), es), Kept(es).0, Kept(es).1)
    ensures AllAcceptable(env, base, Kept(es).1)
    decreases |es|
  {
    if es != [] {
      var prev, e := es[..|es|-1], es[|es|-1];
      MessagesPrefix(env, base, es);
      var h := Run(env, Fresh(s), prev);
      RunKeeps(env, base, s, prev);
      var (done, ms) := Kept(prev);
      match e
      case Arrives(m) =>
        EagerSnoc(env, s, ms, m);
      case Setup(up) =>
        if !done && ms != [] { EagerSnoc(env, s, [], h.pending); assert [] + [h.pending] == ms; }
    }
  }

  ghost predicate AllValid(ms: seq<Message>) { forall i :: 0 <= i < |ms| ==> ValidMessage(ms[i]) }

  // How often the container fails to come up before it first does.
  function Failures(es: seq<Event>): nat {
    if es == [] then 0
    else Failures(es[..|es|-1]) + if es[|es|-1] == Setup(false) && !Kept(es[..|es|-1]).0 then 1 else 0
  }

  // The messages that have been run, or have killed the helper.
  ghost function Tried(es: seq<Event>): seq<Message> { if Kept(es).0 then Kept(es).1 else [] }

  /** The helper is alive exactly as long as the container has failed to come up fewer than sixty times before it
      first did, and no message that was its turn was invalid. */
  lemma {:induction false} AliveIff(env: Env, s: Ip, es: seq<Event>)
    ensures var h := Run(env, Fresh(s), es);
            && (h.alive <==> Failures(es) < MAX_CONTAINER_RETRIES && AllValid(Tried(es)))
            && (h.alive ==> h.tries == Failures(es) && h.initDone == Kept(es).0 && Waiting(h, Kept(es).1))
    decreases |es|
  {
    if es != [] {
      var prev, e := es[..|es|-1], es[|es|-1];
      AliveIff(env, s, prev);
      AliveNext(env, Run(env, Fresh(s), prev), e, Kept(prev).0, Kept(prev).1, Failures(prev));
      assert Kept(es) == match e case Arrives(m) => (Kept(prev).0, if Kept(prev).0 then Kept(prev).1 + [m] else [m])
                                 case Setup(up) => (Kept(prev).0 || up, Kept(prev).1);
    }
  }

  lemma AliveNext(env: Env, h: Helper, e: Event, done: bool, ms: seq<Message>, failures: nat)
    requires h.alive <==> failures < MAX_CONTAINER_RETRIES && (done ==> AllValid(ms))
    requires h.alive ==> h.tries == failures && h.initDone == done && Waiting(h, ms)
    ensures var h' := Step(env, h, e);
            var failures' := failures + if e == Setup(false) && !done then 1 else 0;
            var done' := done || e == Setup(true);
            var ms' := if e.Setup? then ms else if done then ms + [e.m] else [e.m];
            && (h'.alive <==> failures' < MAX_CONTAINER_RETRIES && (done' ==> AllValid(ms')))
            && (h'.alive ==> h'.tries == failures' && h'.initDone == done' && Waiting(h', ms'))
  {
    ValidNext(ms, if e.Arrives? then e.m else Unknown);
    if ms == [h.pending] { ValidNext([], h.pending); }
  }

  // Before the container has come up, only the latest message waits.
  ghost predicate Waiting(h: Helper, ms: seq<Message>) {
    !h.initDone ==> (ms == [] ==> h.pending == Unknown) && (ms != [] ==> ms == [h.pending])
  }

  lemma ValidNext(ms: seq<Message>, m: Message)
    ensures AllValid(ms + [m]) <==> AllValid(ms) && ValidMessage(m)
    ensures AllValid([m]) <==> ValidMessage(m)
  {
    assert (ms + [m])[|ms|] == m && [m][0] == m;
    if AllValid(ms + [m]) { forall i | 0 <= i < |ms| ensures ValidMessage(ms[i]) { assert (ms + [m])[i] == ms[i]; } }
  }

  lemma {:induction false} KeptAreValid(es: seq<Event>)
    requires AllValid(Messages(es))
    ensures AllValid(Kept(es).1)
    decreases |es|
  {
    if es != [] {
      var prev, e := es[..|es|-1], es[|es|-1];
      ValidNext(Messages(prev), if e.Arrives? then e.m else Unknown);
      assert e.Setup? ==> Messages(es) == Messages(prev);
      KeptAreValid(prev);
      ValidNext(Kept(prev).1, if e.Arrives? then e.m else Unknown);
    }
  }

  // Same kernel, same configured state, same configuration when there is one.
  ghost predicate SameEffect(s: Ip, t: Ip) {
    s.kernel == t.kernel && s.configured == t.configured && (s.configured ==> s.current == t.current)
  }

  /** Every live helper, at every moment: the kernel is the baseline plus what the last command it ran
      asks for, and the process is in the host namespace. */
  lemma HelperOutcome(env: Env, base: Kernel, s: Ip, es: seq<Event>)
    requires base.ns == Host && s.kernel == base && !s.configured
    requires AllAcceptable(env, base, Messages(es)) && Run(env, Fresh(s), es).alive
    ensures Synced(env, base, Run(env, Fresh(s), es).ip)
    ensures var (done, ms) := Kept(es);
            Outcome(env, base, if done then LastCommand(ms) else Unknown, Run(env, Fresh(s), es).ip)
  {
    RunKeeps(env, base, s, es);
    var (done, ms) := Kept(es);
    EagerOutcome(env, base, s, ms);
  }

  /** With a command in every message, a helper whose container has come up is where it would be had it
      run every message on arrival. */
  lemma LastCommandWins(env: Env, base: Kernel, s: Ip, es: seq<Event>)
    requires base.ns == Host && s.kernel == base && !s.configured
    requires AllAcceptable(env, base, Messages(es)) && Run(env, Fresh(s), es).alive
    requires Run(env, Fresh(s), es).initDone
    requires Unknown !in Messages(es)
    ensures SameEffect(Run(env, Fresh(s), es).ip, Eager(env, s, Messages(es)))
  {
    RunKeeps(env, base, s, es);
    CoalescingIff(env, base, s, es);
    KeptLast(es);
  }

  lemma {:induction false} KeptLast(es: seq<Event>)
    ensures Kept(es).1 == [] <==> Messages(es) == []
    ensures Messages(es) != [] ==> Kept(es).1[|Kept(es).1|-1] == Messages(es)[|Messages(es)|-1]
    ensures LastCommand(Kept(es).1) != Unknown ==> LastCommand(Kept(es).1) == LastCommand(Messages(es))
    decreases |es|
  {
    if es != [] {
      var prev := es[..|es|-1];
      KeptLast(prev);
      var (done, ms) := Kept(prev);
      match es[|es|-1]
      case Arrives(m) =>
        Snoc(Messages(prev), m); Snoc(ms, m); Snoc([], m);
        assert [] + [m] == [m];
      case Setup(_) => assert Messages(es) == Messages(prev);
    }
  }

  lemma Snoc(ms: seq<Message>, m: Message)
    ensures LastCommand(ms + [m]) == if m == Unknown then LastCommand(ms) else m
  {
    assert (ms + [m])[..|ms|] == ms;
  }

  /** The exact condition, with messages that hold no command allowed: keeping only the latest message
      loses a Set exactly when such a message overwrote it and no command came after. */
  lemma CoalescingIff(env: Env, base: Kernel, s: Ip, es: seq<Event>)
    requires base.ns == Host && s.kernel == base && !s.configured
    requires AllAcceptable(env, base, Messages(es)) && Run(env, Fresh(s), es).alive
    requires Run(env, Fresh(s), es).initDone
    ensures SameEffect(Run(env, Fresh(s), es).ip, Eager(env, s, Messages(es)))
            <==> LastCommand(Kept(es).1) != Unknown || !(env.netns && LastCommand(Messages(es)).SetIp?)
  {
    RunKeeps(env, base, s, es);
    HelperOutcome(env, base, s, es);
    EagerOutcome(env, base, s, Messages(es));
    KeptLast(es);
  }

  /** A Set overwritten by a message with no command is lost. */
  lemma OverwrittenSetIsLost(env: Env, base: Kernel, s: Ip, c: Config)
    requires base.ns == Host && s.kernel == base && !s.configured
    requires env.netns && ValidConfig(c) && Separate(base, env.links, c)
    ensures var es := [Arrives(SetIp(c)), Arrives(Unknown), Setup(true)];
            && Run(env, Fresh(s), es).initDone && !Run(env, Fresh(s), es).ip.configured
            && Eager(env, s, Messages(es)).configured
  {
    var es := [Arrives(SetIp(c)), Arrives(Unknown), Setup(true)];
    assert es[..2][..1] == es[..1] && es[..1][..0] == [];
    assert Messages(es[..1]) == [SetIp(c)];
    assert Messages(es[..2]) == [SetIp(c), Unknown];
    assert Run(env, Fresh(s), es[..1]) == Fresh(s).(pending := SetIp(c));
    assert Run(env, Fresh(s), es[..2]) == Fresh(s);
    EagerSnoc(env, s, [SetIp(c)], Unknown);
    EagerSnoc(env, s, [], SetIp(c));
    assert [] + [SetIp(c)] == [SetIp(c)] && [SetIp(c)] + [Unknown] == [SetIp(c), Unknown];
  }

  /** The destructor leaves the kernel as it was before the helper started, whatever happened. */
  lemma DestructionRestores(env: Env, base: Kernel, s: Ip, es: seq<Event>)
    requires base.ns == Host && s.kernel == base && !s.configured
    requires AllAcceptable(env, base, Messages(es)) && Run(env, Fresh(s), es).alive
    ensures Clear(env, Run(env, Fresh(s), es).ip).kernel == base
  {
    HelperOutcome(env, base, s, es);
    ClearSynced(env, base, Run(env, Fresh(s), es).ip);
  }
}
