/** Finding the rules of a request: the index lookup agrees with checking every rule in turn. */
module Router {
  import opened Basics
  import opened Config
  import opened RouteIndex
  import opened RouteOrder
  import opened RuleCache
  import opened Text
  import opened Trie

  datatype Request = Request(path: string, verb: string, clientKind: string)

  predicate EqualFold(a: string, b: string) {
    ToLower(a) == ToLower(b)
  }

  function Canonical(verb: string): string {
    ToUpper(TrimSpace(verb))
  }

  predicate VerbAllowed(methods: seq<string>, verb: string) {
    methods == [] || exists m <- methods :: Canonical(m) == "*" || Canonical(m) == Canonical(verb)
  }

  predicate ClientAllowed(ruleClient: string, clientKind: string) {
    ruleClient == "" || EqualFold(TrimSpace(ruleClient), TrimSpace(clientKind))
  }

  predicate Passes(rule: Rule, req: Request) {
    rule.enabled && VerbAllowed(rule.methods, req.verb) && ClientAllowed(rule.client, req.clientKind)
  }

  /** The whole condition, read off one rule: no index, no special case for the empty path. */
  predicate Applies(rule: Rule, req: Request) {
    Passes(rule, req) && Covers(PatternOf(rule), req.path)
  }

  /** A rule applies to a request if it is enabled, takes the method and the client up to case and spaces, and its
      trimmed pattern is empty, or is the path, or ends in a star and the path begins with the rest. */
  lemma AppliesIff(rule: Rule, req: Request)
    ensures var p := TrimSpace(rule.pattern);
      Applies(rule, req) <==>
        && rule.enabled
        && (rule.methods == []
            || exists m <- rule.methods :: TrimSpace(m) == "*" || ToUpper(TrimSpace(m)) == ToUpper(TrimSpace(req.verb)))
        && (rule.client == "" || ToLower(TrimSpace(rule.client)) == ToLower(TrimSpace(req.clientKind)))
        && (if p != "" && p[|p| - 1] == '*' then p[..|p| - 1] <= req.path else p == "" || p == req.path)
  {
    hide TrimSpace;
    var p := TrimSpace(rule.pattern);
    forall m | m in rule.methods
      ensures Canonical(m) == "*" <==> TrimSpace(m) == "*"
    {
      StarAlone(TrimSpace(m));
    }
    if p != "" && p[|p| - 1] == '*' {
      assert p[|p| - 1..] == "*";
      assert |p| == 1 ==> p == "*";
    }
    hide ToUpper, ToLower;
  }

  lemma StarAlone(s: string)
    ensures ToUpper(s) == "*" <==> s == "*"
  {
    if ToUpper(s) == "*" {
      assert ToUpper(s)[0] == '*';
    }
  }

  method MatchMethod(methods: seq<string>, verb: string) returns (ok: bool)
    ensures ok == VerbAllowed(methods, verb)
  {
    if |methods| == 0 {
      return true;
    }
    var wanted := ToUpper(TrimSpace(verb));
    for i := 0 to |methods|
      invariant forall m <- methods[..i] :: Canonical(m) != "*" && Canonical(m) != wanted
    {
      var m := ToUpper(TrimSpace(methods[i]));
      if m == "*" || m == wanted {
        assert Canonical(methods[i]) == m;
        return true;
      }
    }
    return false;
  }

  function Filtered(rules: seq<Rule>, req: Request): seq<Rule> {
    if rules == [] then [] else Filtered(Front(rules), req) + Only(Passes(Last(rules), req), Last(rules))
  }

  method FilterRules(rules: seq<Rule>, req: Request) returns (out: seq<Rule>)
    ensures out == Filtered(rules, req)
  {
    out := [];
    assert rules[..|rules|] == rules;
    for i := 0 to |rules|
      invariant out == Filtered(rules[..i], req)
    {
      assert Front(rules[..i + 1]) == rules[..i];
      var r := rules[i];
      if !r.enabled {
        continue;
      }
      var verbOk := MatchMethod(r.methods, req.verb);
      if !verbOk {
        continue;
      }
      if !ClientAllowed(r.client, req.clientKind) {
        continue;
      }
      out := out + [r];
    }
  }

  /** What the index yields, before sorting. */
  function Gathered(listed: seq<Rule>, req: Request): seq<Rule> {
    (if req.path != "" then
       Filtered(Select(listed, Just(req.path)), req) + Filtered(Hits(Insertions(listed), req.path), req)
     else [])
    + Filtered(Select(listed, Any), req)
  }

  class Matcher {
    const snap: Snapshot<RouteSnapshot>

    constructor (initial: RouteSnapshot?)
      requires initial != null ==> initial.Valid()
      ensures fresh(snap) && snap.ptr.Valid()
      ensures if initial != null then snap.ptr == initial else snap.ptr.source == map[]
    {
      var first := initial;
      if first == null {
        first := BuildRouteSnapshot(map[]);
      }
      this.snap := new Snapshot<RouteSnapshot>(first);
    }

    method Replace(next: RouteSnapshot?)
      requires next != null ==> next.Valid()
      modifies snap
      ensures snap.ptr.Valid()
      ensures if next != null then snap.ptr == next else snap.ptr.source == map[]
    {
      var replacement := next;
      if replacement == null {
        replacement := BuildRouteSnapshot(map[]);
      }
      snap.Replace(replacement);
    }

    /** By descending priority and then by id, and every rule as often as the rule map holds it, if it applies,
        and not at all if not. */
    method Match(req: Request) returns (res: seq<Rule>)
      requires snap.ptr.Valid()
      ensures res == StableSort(Gathered(InOrder(snap.ptr.source, snap.ptr.order), req))
      ensures forall i, j | 0 <= i < j < |res| :: Comes(res[i], res[j])
      ensures forall r :: multiset(res)[r] == if Applies(r, req) then Copies(snap.ptr.source, r) else 0
    {
      var current := snap.Load();
      res := Collect(current, InOrder(current.source, current.order), req);
      Answered(current.source, current.order, req);
      hide Gathered, StableSort, Ordered, Comes, Lists, RouteSnapshot.Indexes, Applies, Copies;
      res := StableSort(res);
      OrderedByPriority(res);
    }
  }

  lemma Stored(current: RouteSnapshot, listed: seq<Rule>, req: Request)
    requires current.Indexes(listed)
    ensures current.prefix.Valid() && Hits(current.prefix.entries, req.path) == Hits(Insertions(listed), req.path)
    ensures current.wildcard == Select(listed, Any)
    ensures req.path in current.exact ==> current.exact[req.path] == Select(listed, Just(req.path))
    ensures req.path !in current.exact ==> Filtered(Select(listed, Just(req.path)), req) == []
  {
    assert Entries(current.exact, req.path) == Select(listed, Just(req.path));
  }

  method Collect(current: RouteSnapshot, ghost listed: seq<Rule>, req: Request) returns (res: seq<Rule>)
    requires current.Indexes(listed)
    ensures res == Gathered(listed, req)
  {
    hide TrieNode.Valid, RouteSnapshot.Indexes, Select, Insertions, Filtered, Hits;
    Stored(current, listed, req);
    res := [];
    if req.path != "" {
      if req.path in current.exact {
        var some := FilterRules(current.exact[req.path], req);
        res := res + some;
      }
      var hits := current.prefix.Match(req.path);
      var some := FilterRules(hits, req);
      res := res + some;
    }
    var some := FilterRules(current.wildcard, req);
    res := res + some;
  }

  // ---------------------------------------------------------------- the index against the naive filter

  /** How many names of the rule map hold exactly this rule. */
  function Copies(source: Rules, r: Rule): nat {
    |Holders(source, source.Keys, r)|
  }

  function Holders(source: Rules, keys: set<string>, r: Rule): set<string>
    requires keys <= source.Keys
  {
    set k | k in keys && source[k] == r
  }

  function Count(s: seq<Rule>, r: Rule): nat {
    multiset(s)[r]
  }

  lemma CountConcat(a: seq<Rule>, b: seq<Rule>, r: Rule)
    ensures Count(a + b, r) == Count(a, r) + Count(b, r)
  {
  }

  lemma CountOnly(s: seq<Rule>, more: bool, x: Rule, r: Rule)
    ensures Count(s + Only(more, x), r) == Count(s, r) + if more && x == r then 1 else 0
  {
  }

  lemma CountLast(s: seq<Rule>, r: Rule)
    requires s != []
    ensures Count(s, r) == Count(Front(s), r) + if Last(s) == r then 1 else 0
  {
    assert s == Front(s) + [Last(s)];
  }

  lemma {:induction false} CountFiltered(s: seq<Rule>, req: Request, r: Rule)
    ensures Count(Filtered(s, req), r) == if Passes(r, req) then Count(s, r) else 0
  {
    if s != [] {
      CountFiltered(Front(s), req, r);
      CountOnly(Filtered(Front(s), req), Passes(Last(s), req), Last(s), r);
      CountLast(s, r);
      hide Passes;
    }
  }

  lemma {:induction false} CountSelected(listed: seq<Rule>, pattern: Pattern, r: Rule)
    ensures Count(Select(listed, pattern), r) == if Asks(r, pattern) then Count(listed, r) else 0
  {
    if listed != [] {
      CountSelected(Front(listed), pattern, r);
      CountOnly(Select(Front(listed), pattern), Asks(Last(listed), pattern), Last(listed), r);
      CountLast(listed, r);
      hide Asks;
    }
  }

  predicate UnderPrefix(r: Rule, path: string) {
    r.enabled && PatternOf(r).Under? && HasPrefix(path, PatternOf(r).prefix)
  }

  lemma {:induction false} CountPrefixed(listed: seq<Rule>, path: string, r: Rule)
    ensures Count(Prefixed(Insertions(listed), path), r) == if UnderPrefix(r, path) then Count(listed, r) else 0
  {
    if listed != [] {
      var front, rule := Front(listed), Last(listed);
      CountPrefixed(front, path, r);
      CountOnly(Prefixed(Insertions(front), path), UnderPrefix(rule, path), rule, r);
      CountLast(listed, r);
      PrefixedGrows(Insertions(front), rule, path);
      hide UnderPrefix;
    }
  }

  lemma PrefixedGrows(entries: seq<Entry>, rule: Rule, path: string)
    ensures Prefixed(entries + Insertion(rule), path) == Prefixed(entries, path) + Only(UnderPrefix(rule, path), rule)
  {
    if Insertion(rule) != [] {
      assert Front(entries + Insertion(rule)) == entries;
    } else {
      assert entries + Insertion(rule) == entries;
    }
  }

  /** The index loses no rule that applies, adds none that does not, and repeats none. */
  lemma IndexIsNaive(listed: seq<Rule>, req: Request, r: Rule)
    ensures Count(Gathered(listed, req), r) == if Applies(r, req) then Count(listed, r) else 0
  {
    var path := req.path;
    var exact, hits, wild := Select(listed, Just(path)), Hits(Insertions(listed), path), Select(listed, Any);
    CountSelected(listed, Just(path), r);
    CountSelected(listed, Any, r);
    CountPrefixed(listed, path, r);
    HitsArePrefixed(Insertions(listed), path);
    CountFiltered(exact, req, r);
    CountFiltered(hits, req, r);
    CountFiltered(wild, req, r);
    CountConcat(Filtered(exact, req), Filtered(hits, req), r);
    CountConcat(if path != "" then Filtered(exact, req) + Filtered(hits, req) else [], Filtered(wild, req), r);
    hide Filtered, Hits, Insertions, Select, Prefixed, VerbAllowed, ClientAllowed, TrimSpace;
  }

  lemma OneMoreHolder(source: Rules, keys: set<string>, id: string, r: Rule)
    requires keys + {id} <= source.Keys && id !in keys
    ensures |Holders(source, keys + {id}, r)| == |Holders(source, keys, r)| + if source[id] == r then 1 else 0
  {
    assert Holders(source, keys + {id}, r) == Holders(source, keys, r) + if source[id] == r then {id} else {};
  }

  lemma ListsFront(order: seq<string>)
    requires order != [] && Lists(order, Elements(order))
    ensures Lists(Front(order), Elements(Front(order)))
    ensures Elements(order) == Elements(Front(order)) + {Last(order)} && Last(order) !in Elements(Front(order))
  {
    assert order == Front(order) + [Last(order)];
  }

  lemma {:induction false} ListedOnce(source: Rules, order: seq<string>, r: Rule)
    requires Lists(order, Elements(order)) && Elements(order) <= source.Keys
    ensures Count(InOrder(source, order), r) == |Holders(source, Elements(order), r)|
  {
    if order != [] {
      var front, id := Front(order), Last(order);
      ListsFront(order);
      ListedOnce(source, front, r);
      CountLast(InOrder(source, order), r);
      hide Lists, Elements;
      OneMoreHolder(source, Elements(front), id, r);
    } else {
      assert Holders(source, Elements(order), r) == {};
    }
  }

  lemma EachOnce(source: Rules, order: seq<string>, req: Request, r: Rule)
    requires Lists(order, source.Keys)
    ensures Count(Gathered(InOrder(source, order), req), r) == if Applies(r, req) then Copies(source, r) else 0
  {
    IndexIsNaive(InOrder(source, order), req, r);
    ListedOnce(source, order, r);
  }

  /** What an answer amounts to. */
  lemma Answered(source: Rules, order: seq<string>, req: Request)
    requires Lists(order, source.Keys)
    ensures var res := StableSort(Gathered(InOrder(source, order), req));
      Ordered(res) && forall r :: multiset(res)[r] == if Applies(r, req) then Copies(source, r) else 0
  {
    SortOrders(Gathered(InOrder(source, order), req));
    forall r {
      EachOnce(source, order, req, r);
    }
  }

  // ---------------------------------------------------------------- determinism

  /** Every rule is listed under its own name. */
  ghost predicate Keyed(source: Rules) {
    forall id <- source :: source[id].ruleId == id
  }

  lemma CountTwice(s: seq<Rule>, i: nat, j: nat)
    requires i < j < |s| && s[i] == s[j]
    ensures Count(s, s[i]) >= 2
  {
    assert s == s[..j] + s[j..] && s[i] in s[..j] && s[i] in s[j..];
    assert multiset(s) == multiset(s[..j]) + multiset(s[j..]);
  }

  lemma OneHolder(source: Rules, r: Rule)
    requires Keyed(source)
    ensures Copies(source, r) <= 1
  {
    SubsetSize(Holders(source, source.Keys, r), {r.ruleId});
  }

  lemma NeverTied(source: Rules, order: seq<string>, req: Request)
    requires Lists(order, source.Keys) && Keyed(source)
    ensures NoTies(StableSort(Gathered(InOrder(source, order), req)))
  {
    var gathered := Gathered(InOrder(source, order), req);
    var s := StableSort(gathered);
    SortOrders(gathered);
    forall i, j | 0 <= i < j < |s|
      ensures !Tied(s[i], s[j])
    {
      forall k | k == i || k == j
        ensures s[k].ruleId in source && source[s[k].ruleId] == s[k] && Count(s, s[k]) <= 1
      {
        assert s[k] in multiset(s);
        EachOnce(source, order, req, s[k]);
        OneHolder(source, s[k]);
        var id := Member(Holders(source, source.Keys, s[k]));
      }
      if s[i] == s[j] {
        CountTwice(s, i, j);
      }
    }
  }

  /** Whatever order Go goes through a rule map in, a request gets the same rules in the same order. */
  lemma MatchingIsDeterministic(source: Rules, order: seq<string>, other: seq<string>, req: Request)
    requires Lists(order, source.Keys) && Lists(other, source.Keys) && Keyed(source)
    ensures StableSort(Gathered(InOrder(source, order), req)) == StableSort(Gathered(InOrder(source, other), req))
  {
    var a, b := Gathered(InOrder(source, order), req), Gathered(InOrder(source, other), req);
    NeverTied(source, order, req);
    SortOrders(a);
    SortOrders(b);
    forall r
      ensures multiset(a)[r] == multiset(b)[r]
    {
      EachOnce(source, order, req, r);
      EachOnce(source, other, req, r);
    }
    OrderIsUnique(StableSort(a), StableSort(b));
  }

  /** The rule maps built from a list satisfy the premise. */
  lemma BuiltMapsAreKeyed(rules: seq<Rule>)
    ensures Keyed(RuleMapOf(rules))
  {
    forall id | id in RuleMapOf(rules)
      ensures RuleMapOf(rules)[id].ruleId == id
    {
      RuleMapKeyed(rules, id);
    }
  }
}
