/** Rule distribution between nodes. Every node keeps a snapshot of the rules; an Upsert writes Redis,
    then replaces its own node's snapshot by a modified copy of one it loaded earlier, then publishes;
    a node's single watcher answers notifications and ticks by re-reading Redis key by key. All these
    steps interleave freely. */
module RuleSync {
  import opened Basics
  import opened Config

  type Rules = map<string, Rule>

  /** A reload in progress holds the keys it still has to read and what it has read so far. */
  datatype Watcher = Idle | Scanning(todo: set<string>, tmp: Rules)

  /** An Upsert that has written Redis and not yet published. */
  datatype Upsert =
    | Stored(node: nat, rule: Rule)
    | Loaded(node: nat, rule: Rule, copy: Rules)
    | Swapped(node: nat, rule: Rule)

  /** `owed` records that a fault kept a notification or a rule from this node and that no reload has
      begun since. */
  datatype Node = Node(snapshot: Rules, pending: nat, watcher: Watcher, owed: bool)

  datatype System = System(redis: Rules, nodes: seq<Node>, flying: map<nat, Upsert>)

  datatype Event =
    // the steps of Upsert
    | Set(op: nat, node: nat, rule: Rule)
    | Load(op: nat)
    | Swap(op: nat)
    | Publish(op: nat)
    // the steps of a watcher
    | Notified(node: nat)
    | Tick(node: nat)
    | Read(node: nat, key: string)
    | Finish(node: nat)
    // faults
    | PublishFails(op: nat)
    | Lose(node: nat)
    | Skip(node: nat, key: string)
    | Abort(node: nat)

  predicate Enabled(s: System, e: Event) {
    match e
    case Set(op, node, rule) => op !in s.flying && node < |s.nodes| && rule.ruleId != ""
    case Load(op) => op in s.flying && s.flying[op].Stored? && s.flying[op].node < |s.nodes|
    case Swap(op) => op in s.flying && s.flying[op].Loaded? && s.flying[op].node < |s.nodes|
    case Publish(op) => op in s.flying && s.flying[op].Swapped?
    case PublishFails(op) => op in s.flying && s.flying[op].Swapped?
    case Notified(n) => n < |s.nodes| && s.nodes[n].watcher.Idle? && s.nodes[n].pending > 0
    case Tick(n) => n < |s.nodes| && s.nodes[n].watcher.Idle?
    case Read(n, key) => n < |s.nodes| && s.nodes[n].watcher.Scanning? && key in s.redis
    case Skip(n, key) => n < |s.nodes| && s.nodes[n].watcher.Scanning? && key in s.nodes[n].watcher.todo
    case Finish(n) => n < |s.nodes| && s.nodes[n].watcher.Scanning? && s.nodes[n].watcher.todo == {}
    case Abort(n) => n < |s.nodes| && s.nodes[n].watcher.Scanning?
    case Lose(n) => n < |s.nodes| && s.nodes[n].pending > 0
  }

  function Rewatch(s: System, n: nat, node: Node): System
    requires n < |s.nodes|
  {
    s.(nodes := s.nodes[n := node])
  }

  function Everyone(nodes: seq<Node>, notified: bool): seq<Node> {
    seq(|nodes|, i requires 0 <= i < |nodes| =>
      if notified then nodes[i].(pending := nodes[i].pending + 1) else nodes[i].(owed := true))
  }

  function Next(s: System, e: Event): System
    requires Enabled(s, e)
  {
    match e
    case Set(op, node, rule) => s.(redis := s.redis[rule.ruleId := rule], flying := s.flying[op := Stored(node, rule)])
    case Load(op) =>
      var u := s.flying[op];
      s.(flying := s.flying[op := Loaded(u.node, u.rule, s.nodes[u.node].snapshot)])
    case Swap(op) =>
      var u := s.flying[op];
      Rewatch(s, u.node, s.nodes[u.node].(snapshot := u.copy[u.rule.ruleId := u.rule]))
        .(flying := s.flying[op := Swapped(u.node, u.rule)])
    case Publish(op) => s.(flying := s.flying - {op}, nodes := Everyone(s.nodes, true))
    case PublishFails(op) => s.(flying := s.flying - {op}, nodes := Everyone(s.nodes, false))
    case Notified(n) =>
      var node := s.nodes[n];
      Rewatch(s, n, node.(pending := node.pending - 1, watcher := Scanning(s.redis.Keys, map[]), owed := false))
    case Tick(n) => Rewatch(s, n, s.nodes[n].(watcher := Scanning(s.redis.Keys, map[]), owed := false))
    case Read(n, key) =>
      var w := s.nodes[n].watcher;
      Rewatch(s, n, s.nodes[n].(watcher := Scanning(w.todo - {key}, w.tmp[s.redis[key].ruleId := s.redis[key]])))
    case Skip(n, key) =>
      var w := s.nodes[n].watcher;
      Rewatch(s, n, s.nodes[n].(watcher := Scanning(w.todo - {key}, w.tmp), owed := true))
    case Finish(n) => Rewatch(s, n, s.nodes[n].(snapshot := s.nodes[n].watcher.tmp, watcher := Idle))
    case Abort(n) => Rewatch(s, n, s.nodes[n].(watcher := Idle, owed := true))
    case Lose(n) => Rewatch(s, n, s.nodes[n].(pending := s.nodes[n].pending - 1, owed := true))
  }

  /** A run of enabled events leads from `s` to `t`. */
  ghost predicate Leads(s: System, es: seq<Event>, t: System)
    decreases |es|
  {
    if es == [] then s == t
    else Enabled(s, es[0]) && Leads(Next(s, es[0]), es[1..], t)
  }

  // ---------------------------------------------------------------- the invariant

  /** Rules are stored under their own names. */
  ghost predicate Named(redis: Rules) {
    forall k <- redis :: redis[k].ruleId == k
  }

  /** A node nobody owes anything, in a system with no Upsert between its SET and its publish, either
      has the current rules or is collecting exactly them. */
  predicate UpToDate(redis: Rules, n: Node) {
    match n.watcher
    case Idle => n.snapshot == redis
    case Scanning(todo, tmp) =>
      && todo <= redis.Keys
      && redis.Keys == todo + tmp.Keys
      && forall k <- tmp :: k in redis && tmp[k] == redis[k]
  }

  predicate Due(s: System, n: Node) {
    s.flying != map[] || n.pending > 0 || n.owed
  }

  ghost predicate Coherent(s: System) {
    && Named(s.redis)
    && forall n <- s.nodes :: Due(s, n) || UpToDate(s.redis, n)
  }

  lemma StepKeepsCoherent(s: System, e: Event)
    requires Coherent(s) && Enabled(s, e)
    ensures Coherent(Next(s, e))
  {
    var t := Next(s, e);
    forall n <- t.nodes ensures Due(t, n) || UpToDate(t.redis, n) {
      match e {
        case Set(op, node, rule) => assert op in t.flying;
        case Load(op) => assert op in t.flying;
        case Swap(op) => assert op in t.flying;
        case Publish(op) => assert n.pending > 0;
        case PublishFails(op) => assert n.owed;
        case Read(i, key) => ReadKeeps(s, s.nodes[i], key);
        case Notified(_) =>
        case Tick(_) =>
        case Skip(_, _) =>
        case Finish(i) => assert s.nodes[i] in s.nodes;
        case Abort(_) =>
        case Lose(_) =>
      }
    }
  }

  lemma ReadKeeps(s: System, n: Node, key: string)
    requires Named(s.redis) && n in s.nodes && n.watcher.Scanning? && key in s.redis
    ensures s.redis[key].ruleId == key
    ensures UpToDate(s.redis, n) ==>
      UpToDate(s.redis, n.(watcher := Scanning(n.watcher.todo - {key}, n.watcher.tmp[key := s.redis[key]])))
  {
  }

  lemma {:induction false} RunKeepsCoherent(s: System, es: seq<Event>, t: System)
    requires Coherent(s) && Leads(s, es, t)
    ensures Coherent(t)
    decreases |es|
  {
    if es != [] {
      StepKeepsCoherent(s, es[0]);
      RunKeepsCoherent(Next(s, es[0]), es[1..], t);
    }
  }

  // ---------------------------------------------------------------- convergence

  /** Bootstrapped and subscribed nodes that agree with Redis. */
  ghost predicate InAgreement(s: System) {
    && Named(s.redis) && s.flying == map[]
    && forall n <- s.nodes :: n == Node(s.redis, 0, Idle, false)
  }

  /** No Upsert is between its SET and its publish, no notification is undelivered, all watchers rest. */
  predicate Quiet(s: System) {
    s.flying == map[] && forall n <- s.nodes :: n.pending == 0 && n.watcher.Idle?
  }

  predicate Fault(e: Event) {
    e.PublishFails? || e.Lose? || e.Skip? || e.Abort?
  }

  /** Under every interleaving, faults included, whenever the system is quiet every node that a fault
      has not left behind holds exactly Redis's rules. */
  lemma QuietNodesAgree(s: System, es: seq<Event>, t: System)
    requires InAgreement(s) && Leads(s, es, t) && Quiet(t)
    ensures forall n <- t.nodes | !n.owed :: n.snapshot == t.redis
  {
    RunKeepsCoherent(s, es, t);
  }

  lemma {:induction false} NothingOwed(s: System, es: seq<Event>, t: System)
    requires Leads(s, es, t) && forall n <- s.nodes :: !n.owed
    requires forall e <- es :: !Fault(e)
    ensures forall n <- t.nodes :: !n.owed
    decreases |es|
  {
    if es != [] {
      assert es[0] in es;
      forall e <- es[1..] ensures !Fault(e) {
        assert e in es;
      }
      NothingOwed(Next(s, es[0]), es[1..], t);
    }
  }

  /** Convergence: without faults, whenever the system is quiet every node holds exactly Redis's
      rules, however Upserts and reloads overwrote each other's snapshots on the way. */
  lemma Convergence(s: System, es: seq<Event>, t: System)
    requires InAgreement(s) && Leads(s, es, t) && Quiet(t)
    requires forall e <- es :: !Fault(e)
    ensures forall n <- t.nodes :: n.snapshot == t.redis
  {
    QuietNodesAgree(s, es, t);
    NothingOwed(s, es, t);
  }

  // ---------------------------------------------------------------- settling down

  /** Upserts run on existing nodes, and watchers only look for keys that exist: rules are never
      deleted. */
  ghost predicate WellFormed(s: System) {
    && (forall op <- s.flying :: s.flying[op].node < |s.nodes|)
    && (forall n <- s.nodes | n.watcher.Scanning? :: n.watcher.todo <= s.redis.Keys)
  }

  lemma StepKeepsWellFormed(s: System, e: Event)
    requires WellFormed(s) && Enabled(s, e)
    ensures WellFormed(Next(s, e))
  {
    var t := Next(s, e);
    forall n <- t.nodes | n.watcher.Scanning? ensures n.watcher.todo <= t.redis.Keys {
      var i :| 0 <= i < |t.nodes| && t.nodes[i] == n;
      assert s.nodes[i] in s.nodes;
    }
  }

  predicate Settled(s: System) {
    Quiet(s) && forall n <- s.nodes :: !n.owed
  }

  /** The steps that finish work already begun; a tick only where something is owed. */
  predicate Helpful(s: System, e: Event) {
    && Enabled(s, e)
    && match e
       case Load(_) => true
       case Swap(_) => true
       case Publish(_) => true
       case Notified(_) => true
       case Tick(n) => s.nodes[n].owed
       case Read(n, key) => key in s.nodes[n].watcher.todo
       case Finish(_) => true
       case _ => false
  }

  function Unloaded(s: System): set<nat> {
    set op | op in s.flying && s.flying[op].Stored?
  }

  function Unswapped(s: System): set<nat> {
    set op | op in s.flying && !s.flying[op].Swapped?
  }

  /** Three steps to go for an Upsert that has only stored, two for one that has loaded, one to publish. */
  function Unpublished(s: System): nat {
    |s.flying.Keys| + |Unswapped(s)| + |Unloaded(s)|
  }

  function Debt(n: Node): nat {
    n.pending + if n.owed then 1 else 0
  }

  function Unread(n: Node): nat {
    if n.watcher.Idle? then 0 else |n.watcher.todo| + 1
  }

  function Total(nodes: seq<Node>, weight: Node -> nat): nat {
    if nodes == [] then 0 else Total(Front(nodes), weight) + weight(Last(nodes))
  }

  lemma {:induction false} TotalAfter(nodes: seq<Node>, i: nat, n: Node, weight: Node -> nat)
    requires i < |nodes|
    ensures Total(nodes[i := n], weight) == Total(nodes, weight) - weight(nodes[i]) + weight(n)
  {
    if i == |nodes| - 1 {
      assert Front(nodes[i := n]) == Front(nodes);
    } else {
      assert Front(nodes[i := n]) == Front(nodes)[i := n];
      TotalAfter(Front(nodes), i, n, weight);
    }
  }

  /** What is left to do, in order of importance. */
  ghost predicate Closer(t: System, s: System) {
    || Unpublished(t) < Unpublished(s)
    || (Unpublished(t) == Unpublished(s)
        && (|| Total(t.nodes, Debt) < Total(s.nodes, Debt)
            || (Total(t.nodes, Debt) == Total(s.nodes, Debt) && Total(t.nodes, Unread) < Total(s.nodes, Unread))))
  }

  lemma LoadHelps(s: System, op: nat)
    requires Enabled(s, Load(op))
    ensures Unpublished(Next(s, Load(op))) < Unpublished(s)
  {
    var t := Next(s, Load(op));
    assert op in Unloaded(s) && t.flying.Keys == s.flying.Keys;
    assert Unloaded(t) == Unloaded(s) - {op} && Unswapped(t) == Unswapped(s);
  }

  lemma SwapHelps(s: System, op: nat)
    requires Enabled(s, Swap(op))
    ensures Unpublished(Next(s, Swap(op))) < Unpublished(s)
  {
    var t := Next(s, Swap(op));
    assert op in Unswapped(s) && t.flying.Keys == s.flying.Keys;
    assert Unloaded(t) == Unloaded(s) && Unswapped(t) == Unswapped(s) - {op};
  }

  lemma PublishHelps(s: System, op: nat)
    requires Enabled(s, Publish(op))
    ensures Unpublished(Next(s, Publish(op))) < Unpublished(s)
  {
    var t := Next(s, Publish(op));
    assert Unloaded(t) == Unloaded(s) && Unswapped(t) == Unswapped(s) && t.flying.Keys == s.flying.Keys - {op};
  }

  /** Every helpful step brings the system closer to rest, so no schedule of them goes on for ever. */
  lemma HelpfulStepsCloser(s: System, e: Event)
    requires Helpful(s, e)
    ensures Closer(Next(s, e), s)
  {
    match e
    case Load(op) => LoadHelps(s, op);
    case Swap(op) => SwapHelps(s, op);
    case Publish(op) => PublishHelps(s, op);
    case Notified(i) => TotalAfter(s.nodes, i, Next(s, e).nodes[i], Debt);
    case Tick(i) => TotalAfter(s.nodes, i, Next(s, e).nodes[i], Debt);
    case Read(i, key) =>
      TotalAfter(s.nodes, i, Next(s, e).nodes[i], Debt);
      TotalAfter(s.nodes, i, Next(s, e).nodes[i], Unread);
    case Finish(i) =>
      TotalAfter(s.nodes, i, Next(s, e).nodes[i], Debt);
      TotalAfter(s.nodes, i, Next(s, e).nodes[i], Unread);
  }

  /** There is always a helpful step to take until the system has settled. */
  lemma SomethingHelps(s: System) returns (e: Event)
    requires WellFormed(s) && !Settled(s)
    ensures Helpful(s, e)
  {
    if s.flying != map[] {
      assert s.flying.Keys != {};
      var op :| op in s.flying;
      match s.flying[op]
      case Stored(_, _) => e := Load(op);
      case Loaded(_, _, _) => e := Swap(op);
      case Swapped(_, _) => e := Publish(op);
    } else {
      var n :| n in s.nodes && (n.pending > 0 || !n.watcher.Idle? || n.owed);
      var i :| 0 <= i < |s.nodes| && s.nodes[i] == n;
      if n.watcher.Scanning? {
        if n.watcher.todo == {} {
          e := Finish(i);
        } else {
          var key :| key in n.watcher.todo;
          e := Read(i, key);
        }
      } else if n.pending > 0 {
        e := Notified(i);
      } else {
        e := Tick(i);
      }
    }
  }

  ghost predicate AllHelpful(s: System, es: seq<Event>)
    decreases |es|
  {
    es != [] ==> Helpful(s, es[0]) && AllHelpful(Next(s, es[0]), es[1..])
  }

  lemma {:induction false} Settles(s: System) returns (es: seq<Event>, t: System)
    requires Coherent(s) && WellFormed(s)
    ensures AllHelpful(s, es) && Leads(s, es, t) && Settled(t)
    ensures t.redis == s.redis && |t.nodes| == |s.nodes| && forall n <- t.nodes :: n.snapshot == s.redis
    decreases Unpublished(s), Total(s.nodes, Debt), Total(s.nodes, Unread)
  {
    if Settled(s) {
      es, t := [], s;
    } else {
      var e := SomethingHelps(s);
      HelpfulStepsCloser(s, e);
      StepKeepsCoherent(s, e);
      StepKeepsWellFormed(s, e);
      var rest;
      rest, t := Settles(Next(s, e));
      es := [e] + rest;
      assert es[1..] == rest;
    }
  }

  lemma {:induction false} RunKeepsWellFormed(s: System, es: seq<Event>, t: System)
    requires WellFormed(s) && Leads(s, es, t)
    ensures WellFormed(t)
    decreases |es|
  {
    if es != [] {
      StepKeepsWellFormed(s, es[0]);
      RunKeepsWellFormed(Next(s, es[0]), es[1..], t);
    }
  }

  /** After any run, with any faults in it, merely finishing what was begun leads to a settled system
      with the rules of Redis, unchanged, on every node. */
  lemma AlwaysSettles(s: System, es: seq<Event>, t: System) returns (rest: seq<Event>, u: System)
    requires InAgreement(s) && Leads(s, es, t)
    ensures AllHelpful(t, rest) && Leads(t, rest, u) && Settled(u)
    ensures u.redis == t.redis && |u.nodes| == |t.nodes| && forall n <- u.nodes :: n.snapshot == t.redis
  {
    RunKeepsCoherent(s, es, t);
    RunKeepsWellFormed(s, es, t);
    rest, u := Settles(t);
  }

  // ---------------------------------------------------------------- one operation alone

  /** An Upsert nothing interferes with: SET, load, swap, publish. */
  lemma UpsertAlone(s: System, op: nat, node: nat, rule: Rule) returns (t: System)
    requires op !in s.flying && node < |s.nodes| && rule.ruleId != ""
    ensures Leads(s, [Set(op, node, rule), Load(op), Swap(op), Publish(op)], t)
    ensures t.redis == s.redis[rule.ruleId := rule] && t.flying == s.flying
    ensures |t.nodes| == |s.nodes| && t.nodes[node].snapshot == s.nodes[node].snapshot[rule.ruleId := rule]
    ensures forall i | 0 <= i < |s.nodes| :: t.nodes[i].pending == s.nodes[i].pending + 1
    ensures forall i | 0 <= i < |s.nodes| && i != node :: t.nodes[i].snapshot == s.nodes[i].snapshot
  {
    var a := Next(s, Set(op, node, rule));
    var b := Next(a, Load(op));
    var c := Next(b, Swap(op));
    t := Next(c, Publish(op));
    assert Leads(c, [Publish(op)], t) by {
      assert [Publish(op)][1..] == [];
    }
    assert [Set(op, node, rule), Load(op), Swap(op), Publish(op)][1..] == [Load(op), Swap(op), Publish(op)];
    assert [Load(op), Swap(op), Publish(op)][1..] == [Swap(op), Publish(op)];
    assert [Swap(op), Publish(op)][1..] == [Publish(op)];
    assert t.flying == s.flying;
  }

  // ---------------------------------------------------------------- what is lost and what is not

  /** Redis after all the SETs of a run. */
  function Written(redis: Rules, es: seq<Event>): Rules
    decreases |es|
  {
    if es == [] then redis
    else Written(if es[0].Set? then redis[es[0].rule.ruleId := es[0].rule] else redis, es[1..])
  }

  /** Redis loses nothing: after any run, faults included, it holds what was set last under each name. */
  lemma {:induction false} RedisKeepsAll(s: System, es: seq<Event>, t: System)
    requires Leads(s, es, t)
    ensures t.redis == Written(s.redis, es)
    decreases |es|
  {
    if es != [] {
      RedisKeepsAll(Next(s, es[0]), es[1..], t);
    }
  }

  /** Two Upserts on one node that have both loaded, the second after the first has stored its rule. */
  lemma BothLoaded(s: System, op: nat, op': nat, node: nat, rule: Rule, rule': Rule) returns (t: System)
    requires op != op' && op !in s.flying && op' !in s.flying && node < |s.nodes|
    requires rule.ruleId != "" && rule'.ruleId != ""
    ensures t.nodes == s.nodes && t.redis == s.redis[rule.ruleId := rule][rule'.ruleId := rule']
    ensures op in t.flying && t.flying[op] == Loaded(node, rule, s.nodes[node].snapshot)
    ensures op' in t.flying && t.flying[op'] == Loaded(node, rule', s.nodes[node].snapshot)
    ensures forall rest, u | Leads(t, rest, u) ::
      Leads(s, [Set(op, node, rule), Load(op), Set(op', node, rule'), Load(op')] + rest, u)
  {
    var a := Next(s, Set(op, node, rule));
    var b := Next(a, Load(op));
    var c := Next(b, Set(op', node, rule'));
    t := Next(c, Load(op'));
    forall rest, u | Leads(t, rest, u)
      ensures Leads(s, [Set(op, node, rule), Load(op), Set(op', node, rule'), Load(op')] + rest, u)
    {
      OneStep(c, Load(op'), rest, u);
      OneStep(b, Set(op', node, rule'), [Load(op')] + rest, u);
      OneStep(a, Load(op), [Set(op', node, rule')] + ([Load(op')] + rest), u);
      OneStep(s, Set(op, node, rule), [Load(op)] + ([Set(op', node, rule')] + ([Load(op')] + rest)), u);
      assert [Set(op, node, rule)] + ([Load(op)] + ([Set(op', node, rule')] + ([Load(op')] + rest)))
          == [Set(op, node, rule), Load(op), Set(op', node, rule'), Load(op')] + rest;
    }
  }

  /** A node's snapshot can lose a rule for a while: of two Upserts on one node that have both loaded before either
      has swapped, the one that swaps last undoes the other's rule, although Redis has both. */
  lemma StaleCopyLoses(s: System, op: nat, op': nat, node: nat, rule: Rule, rule': Rule) returns (t: System)
    requires op != op' && op !in s.flying && op' !in s.flying && node < |s.nodes|
    requires rule.ruleId != "" && rule'.ruleId != "" && rule.ruleId != rule'.ruleId
    requires rule.ruleId !in s.nodes[node].snapshot
    ensures Leads(s, [Set(op, node, rule), Load(op), Set(op', node, rule'), Load(op')] + [Swap(op), Swap(op')], t)
    ensures |t.nodes| == |s.nodes|
    ensures rule.ruleId in t.redis && rule.ruleId !in t.nodes[node].snapshot
    ensures rule'.ruleId in t.redis && rule'.ruleId in t.nodes[node].snapshot
  {
    var d := BothLoaded(s, op, op', node, rule, rule');
    var e := Next(d, Swap(op));
    t := Next(e, Swap(op'));
    OneStep(e, Swap(op'), [], t);
    OneStep(d, Swap(op), [Swap(op')], t);
    assert [Swap(op)] + [Swap(op')] == [Swap(op), Swap(op')];
  }

  lemma OneStep(s: System, e: Event, rest: seq<Event>, t: System)
    requires Enabled(s, e) && Leads(Next(s, e), rest, t)
    ensures Leads(s, [e] + rest, t)
  {
    assert ([e] + rest)[1..] == rest;
  }
}
