/** The route index: exact paths in a map, prefixes in a trie, wildcards in a list. */
module RouteIndex {
  import opened Basics
  import opened Config
  import opened RuleCache
  import opened Text
  import opened Trie

  /** What a rule's trimmed pattern asks of a path. */
  datatype Pattern = Any | Under(prefix: string) | Just(path: string)

  function PatternOf(rule: Rule): (p: Pattern)
    ensures p.Under? ==> p.prefix != ""
    ensures p.Just? ==> p.path != ""
  {
    var pattern := TrimSpace(rule.pattern);
    if pattern == "" || pattern == "*" then Any
    else if HasSuffix(pattern, "*") && |pattern| > 1 then Under(Front(pattern))
    else Just(pattern)
  }

  predicate Covers(pattern: Pattern, path: string) {
    match pattern
    case Any => true
    case Under(prefix) => HasPrefix(path, prefix)
    case Just(p) => p == path
  }

  // ---------------------------------------------------------------- contents

  function Only<T>(b: bool, x: T): seq<T> {
    if b then [x] else []
  }

  predicate Asks(rule: Rule, pattern: Pattern) {
    rule.enabled && PatternOf(rule) == pattern
  }

  function Insertion(rule: Rule): seq<Entry> {
    if rule.enabled && PatternOf(rule).Under? then [Entry(PatternOf(rule).prefix, rule)] else []
  }

  /** The enabled rules with exactly this pattern, in the order they were indexed. */
  function Select(listed: seq<Rule>, pattern: Pattern): seq<Rule> {
    if listed == [] then []
    else Select(Front(listed), pattern) + Only(Asks(Last(listed), pattern), Last(listed))
  }

  /** The insertions the enabled prefix rules amount to. */
  function Insertions(listed: seq<Rule>): seq<Entry> {
    if listed == [] then []
    else Insertions(Front(listed)) + Insertion(Last(listed))
  }

  /** An order in which a map of rules can be gone through. */
  ghost predicate Lists(order: seq<string>, keys: set<string>) {
    && Elements(order) == keys
    && (forall i, j | 0 <= i < j < |order| :: order[i] != order[j])
  }

  function InOrder(source: Rules, order: seq<string>): seq<Rule>
    requires Elements(order) <= source.Keys
  {
    if order == [] then []
    else
      assert Last(order) in Elements(order);
      InOrder(source, Front(order)) + [source[Last(order)]]
  }

  function Entries(exact: map<string, seq<Rule>>, path: string): seq<Rule> {
    if path in exact then exact[path] else []
  }

  /** The exact paths and the wildcards of what was indexed. */
  ghost predicate Shelved(exact: map<string, seq<Rule>>, wildcard: seq<Rule>, listed: seq<Rule>) {
    && wildcard == Select(listed, Any)
    && (forall path :: Entries(exact, path) == Select(listed, Just(path)))
  }

  lemma Grows(listed: seq<Rule>, rule: Rule)
    ensures forall p :: Select(listed + [rule], p) == Select(listed, p) + Only(Asks(rule, p), rule)
    ensures Insertions(listed + [rule]) == Insertions(listed) + Insertion(rule)
  {
    assert Front(listed + [rule]) == listed;
  }

  /** Where one more rule goes. */
  lemma OneMore(exact: map<string, seq<Rule>>, wildcard: seq<Rule>, listed: seq<Rule>, rule: Rule, pattern: string)
    requires Shelved(exact, wildcard, listed) && pattern == TrimSpace(rule.pattern)
    ensures var all, same := listed + [rule], Insertions(listed + [rule]) == Insertions(listed);
      if !rule.enabled then same && Shelved(exact, wildcard, all)
      else if pattern == "" || pattern == "*" then same && Shelved(exact, wildcard + [rule], all)
      else if HasSuffix(pattern, "*") && |pattern| > 1 then
        Insertions(all) == Insertions(listed) + [Entry(Front(pattern), rule)] && Shelved(exact, wildcard, all)
      else same && Shelved(exact[pattern := Entries(exact, pattern) + [rule]], wildcard, all)
  {
    Grows(listed, rule);
    hide Select, Insertions, TrimSpace;
  }

  class RouteSnapshot {
    var exact: map<string, seq<Rule>>
    var prefix: TrieNode
    var wildcard: seq<Rule>

    /** The rule map this was built from, and the order it was gone through. */
    ghost var source: Rules
    ghost var order: seq<string>

    ghost function Footprint(): set<object>
      reads this, prefix
    {
      {this, prefix} + prefix.nodes.Values
    }

    ghost predicate Indexes(listed: seq<Rule>)
      reads `exact, `prefix, `wildcard, prefix, prefix.nodes.Values
    {
      && prefix.Valid() && prefix.entries == Insertions(listed)
      && Shelved(exact, wildcard, listed)
    }

    ghost predicate Valid()
      reads this, prefix, prefix.nodes.Values
    {
      Lists(order, source.Keys) && Indexes(InOrder(source, order))
    }

    constructor ()
      ensures Indexes([]) && fresh(prefix) && fresh(prefix.nodes.Values) && source == map[] && order == []
    {
      exact := map[];
      prefix := new TrieNode();
      wildcard := [];
      source := map[];
      order := [];
    }

    /** One turn of the building loop: where a rule goes. */
    method Add(rule: Rule, ghost listed: seq<Rule>)
      requires Indexes(listed)
      modifies this, prefix, prefix.nodes.Values
      ensures Indexes(listed + [rule])
      ensures prefix == old(prefix) && fresh(prefix.nodes.Values - old(prefix.nodes.Values))
      ensures source == old(source) && order == old(order)
    {
      hide TrieNode.Valid, Shelved, Insertions, TrimSpace, HasSuffix;
      var pattern := TrimSpace(rule.pattern);
      OneMore(exact, wildcard, listed, rule, pattern);
      if !rule.enabled {
        return;
      }
      if pattern == "" || pattern == "*" {
        wildcard := wildcard + [rule];
        return;
      }
      if HasSuffix(pattern, "*") && |pattern| > 1 {
        var under := pattern[..|pattern| - 1];
        prefix.Insert(under, rule);
        return;
      }
      exact := exact[pattern := Entries(exact, pattern) + [rule]];
    }
  }

  /** Go goes through a map in any order it likes; so does this loop. */
  method BuildRouteSnapshot(rules: Rules) returns (snap: RouteSnapshot)
    ensures snap.Valid() && snap.source == rules && fresh(snap.Footprint())
  {
    hide TrieNode.Valid, RouteSnapshot.Indexes, Lists, Elements, InOrder;
    snap := new RouteSnapshot();
    ghost var order: seq<string> := [];
    var left := rules.Keys;
    NothingListed(rules);
    while left != {}
      invariant left <= rules.Keys && Lists(order, rules.Keys - left) && Elements(order) <= rules.Keys
      invariant snap.Indexes(InOrder(rules, order)) && fresh(snap.Footprint())
      decreases left
    {
      var id :| id in left;
      Longer(rules, order, id, rules.Keys - left);
      snap.Add(rules[id], InOrder(rules, order));
      order := order + [id];
      assert rules.Keys - left + {id} == rules.Keys - (left - {id});
      left := left - {id};
    }
    assert rules.Keys - left == rules.Keys;
    snap.source, snap.order := rules, order;
  }

  lemma NothingListed(rules: Rules)
    ensures Lists([], rules.Keys - rules.Keys) && Elements([]) == {} && InOrder(rules, []) == []
  {
  }

  lemma Longer(rules: Rules, order: seq<string>, id: string, keys: set<string>)
    requires Lists(order, keys) && id in rules && id !in keys && keys <= rules.Keys
    ensures Lists(order + [id], keys + {id}) && Elements(order) == keys && Elements(order + [id]) == keys + {id}
    ensures InOrder(rules, order + [id]) == InOrder(rules, order) + [rules[id]]
  {
    assert Elements(order + [id]) == Elements(order) + {id};
    assert forall k <- order :: k in Elements(order);
    assert Front(order + [id]) == order;
  }
}
