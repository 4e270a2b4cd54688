/** The prefix index: a trie of heap nodes, built by walking and extending it in place. */
module Trie {
  import opened Basics
  import opened Config
  import opened Text

  /** One insertion. */
  datatype Entry = Entry(prefix: string, rule: Rule)

  /** The rules inserted under exactly this prefix, in insertion order. */
  function At(entries: seq<Entry>, prefix: string): seq<Rule> {
    if entries == [] then []
    else At(Front(entries), prefix) + if Last(entries).prefix == prefix then [Last(entries).rule] else []
  }

  /** The rules of all prefixes of `path` shorter than `n`, shortest prefix first. */
  function Shorter(entries: seq<Entry>, path: string, n: nat): seq<Rule>
    requires n <= |path| + 1
  {
    if n == 0 then [] else Shorter(entries, path, n - 1) + At(entries, path[..n - 1])
  }

  /** What a path matches: by prefix length, then by insertion order. */
  function Hits(entries: seq<Entry>, path: string): seq<Rule> {
    Shorter(entries, path, |path| + 1)
  }

  /** Every path of `was` still leads to the same node. */
  ghost predicate Extends(was: map<string, TrieNode>, nodes: map<string, TrieNode>) {
    forall p <- was :: p in nodes && nodes[p] == was[p]
  }

  lemma StillExtends(a: map<string, TrieNode>, b: map<string, TrieNode>, c: map<string, TrieNode>)
    requires Extends(a, b) && Extends(b, c)
    ensures Extends(a, c)
  {
  }

  lemma OneMoreEntry(entries: seq<Entry>, e: Entry)
    ensures forall p :: At(entries + [e], p) == At(entries, p) + if e.prefix == p then [e.rule] else []
  {
    assert Front(entries + [e]) == entries;
  }

  class TrieNode {
    var children: map<char, TrieNode>
    var rules: seq<Rule>

    /** On a root: the node each path leads to, and everything inserted so far. */
    ghost var nodes: map<string, TrieNode>
    ghost var entries: seq<Entry>

    constructor ()
      ensures Valid() && entries == [] && nodes == map["" := this] && children == map[] && rules == []
    {
      children := map[];
      rules := [];
      nodes := map[];
      entries := [];
      new;
      nodes := map["" := this];
    }

    /** Different paths lead to different nodes, the children of a node are the nodes one step further,
        paths are closed under prefixes, and every node holds the rules inserted under its path. */
    ghost predicate Shape()
      reads this, nodes.Values
    {
      && "" in nodes && nodes[""] == this
      && (forall p, q | p in nodes && q in nodes && p != q :: nodes[p] != nodes[q])
      && (forall p, ch | p in nodes :: ch in nodes[p].children <==> p + [ch] in nodes)
      && (forall p, ch | p in nodes && ch in nodes[p].children :: nodes[p].children[ch] == nodes[p + [ch]])
      && (forall p | p in nodes && p != "" :: Front(p) in nodes)
    }

    ghost predicate Holds()
      reads this, nodes.Values
    {
      && (forall p | p in nodes :: nodes[p].rules == At(entries, p))
      && (forall p | p !in nodes :: At(entries, p) == [])
    }

    ghost predicate Valid()
      reads this, nodes.Values
    {
      Shape() && Holds()
    }

    /** One step of the walk: the child under `ch`, created if it is missing. */
    method Descend(node: TrieNode, ghost path: string, ch: char) returns (next: TrieNode)
      requires Valid() && path in nodes && nodes[path] == node
      modifies this`nodes, node`children
      ensures Valid() && entries == old(entries)
      ensures path + [ch] in nodes && nodes[path + [ch]] == next
      ensures fresh(nodes.Values - old(nodes.Values))
      ensures Extends(old(nodes), nodes)
    {
      if ch in node.children {
        return node.children[ch];
      }
      ghost var was := nodes;
      next := HangIn(node, path, ch);
      HoldsExtended(was, path + [ch], next);
      hide Shape, Holds;
    }

    method HangIn(node: TrieNode, ghost path: string, ch: char) returns (next: TrieNode)
      requires Shape() && path in nodes && nodes[path] == node && ch !in node.children
      modifies this`nodes, node`children
      ensures Shape() && path + [ch] !in old(nodes) && nodes == old(nodes)[path + [ch] := next]
      ensures fresh(next) && next.rules == []
    {
      next := new TrieNode();
      ghost var was, to := nodes, path + [ch];
      assert to !in was && next !in was.Values;
      node.children := node.children[ch := next];
      nodes := nodes[to := next];
      assert forall p | p in was && p != path :: was[p] != node;
      ShapeExtended(was, path, ch, next);
      hide Shape;
    }

    lemma HoldsExtended(was: map<string, TrieNode>, to: string, next: TrieNode)
      requires nodes == was[to := next] && to !in was && next.rules == []
      requires forall p | p in was :: was[p].rules == At(entries, p)
      requires forall p | p !in was :: At(entries, p) == []
      ensures Holds()
    {
    }

    /** The shape after one node has been hung in under `path + [ch]`. */
    lemma ShapeExtended(was: map<string, TrieNode>, path: string, ch: char, next: TrieNode)
      requires path in was && path + [ch] !in was && next !in was.Values && next.children == map[]
      requires nodes == was[path + [ch] := next] && "" in was && was[""] == this
      requires forall p, q | p in was && q in was && p != q :: was[p] != was[q]
      requires forall p | p in was && p != "" :: Front(p) in was
      requires forall p, c | p in was ::
        c in was[p].children <==> p + [c] in was || (p == path && c == ch)
      requires forall p, c | p in was && c in was[p].children ::
        was[p].children[c] == if p == path && c == ch then next else was[p + [c]]
      ensures Shape()
    {
      var to := path + [ch];
      assert Front(to) == path;
      forall p, c | p in nodes
        ensures c in nodes[p].children <==> p + [c] in nodes
        ensures c in nodes[p].children ==> nodes[p].children[c] == nodes[p + [c]]
      {
        assert Front(p + [c]) == p && Last(p + [c]) == c && Last(to) == ch;
      }
    }

    lemma StartsHere()
      requires Shape()
      ensures "" in nodes && nodes[""] == this && Extends(nodes, nodes)
    {
    }

    method Insert(prefix: string, rule: Rule)
      requires Valid()
      modifies this, nodes.Values
      ensures Valid() && fresh(nodes.Values - old(nodes.Values))
      ensures entries == old(entries) + [Entry(prefix, rule)]
      ensures Extends(old(nodes), nodes)
    {
      hide Shape, Holds, Extends;
      StartsHere();
      assert prefix[..0] == "";
      ghost var was := nodes;
      var node := this;
      var i := 0;
      while i < |prefix|
        invariant 0 <= i <= |prefix|
        invariant prefix[..i] in nodes && node == nodes[prefix[..i]]
        invariant Valid() && entries == old(entries)
        invariant fresh(nodes.Values - old(nodes.Values))
        invariant Extends(was, nodes)
      {
        assert prefix[..i + 1] == prefix[..i] + [prefix[i]];
        ghost var before := nodes;
        node := Descend(node, prefix[..i], prefix[i]);
        StillExtends(was, before, nodes);
        i := i + 1;
      }
      assert prefix[..i] == prefix;
      Append(node, prefix, rule);
    }

    /** The end of the walk. */
    method Append(node: TrieNode, ghost path: string, rule: Rule)
      requires Valid() && path in nodes && nodes[path] == node
      modifies this`entries, node`rules
      ensures Valid() && entries == old(entries) + [Entry(path, rule)]
    {
      hide Shape, At;
      NoOtherPath(node, path);
      ghost var was := entries;
      Attach(node, path, rule);
      OneMoreEntry(was, Entry(path, rule));
    }

    method Attach(node: TrieNode, ghost path: string, rule: Rule)
      requires Shape() && node in nodes.Values
      modifies this`entries, node`rules
      ensures Shape() && node.rules == old(node.rules) + [rule] && entries == old(entries) + [Entry(path, rule)]
    {
      node.rules := node.rules + [rule];
      entries := entries + [Entry(path, rule)];
    }

    lemma NoOtherPath(node: TrieNode, path: string)
      requires Shape() && path in nodes && nodes[path] == node
      ensures forall p <- nodes :: nodes[p] == node ==> p == path
    {
    }

    /** The cursor falls off the trie at the first prefix nobody inserted anything under. */
    method Match(path: string) returns (out: seq<Rule>)
      requires Valid()
      ensures out == Hits(entries, path)
    {
      hide Shape, Holds, Leads, Shorter, At;
      out := [];
      var node: TrieNode? := this;
      var i := 0;
      Root(path);
      while i < |path| && node != null
        invariant 0 <= i <= |path| && out == Shorter(entries, path, i)
        invariant if node != null then Leads(path, i, node) else path[..i] !in nodes
      {
        Step(path, i, node);
        if |node.rules| > 0 {
          out := out + node.rules;
        }
        node := if path[i] in node.children then node.children[path[i]] else null;
        i := i + 1;
      }
      if node != null {
        Step(path, i, node);
        if |node.rules| > 0 {
          out := out + node.rules;
        }
      } else {
        NothingBelow(path, i, |path| + 1);
      }
    }

    ghost predicate Leads(path: string, i: int, node: TrieNode)
      reads this
    {
      0 <= i <= |path| && path[..i] in nodes && nodes[path[..i]] == node
    }

    lemma Root(path: string)
      requires Valid()
      ensures Leads(path, 0, this) && Shorter(entries, path, 0) == []
    {
      assert path[..0] == "";
    }

    /** What the walk finds at the node for the first `i` characters, and where it goes from there. */
    lemma Step(path: string, i: nat, node: TrieNode)
      requires Valid() && Leads(path, i, node)
      ensures Shorter(entries, path, i + 1) == Shorter(entries, path, i) + node.rules
      ensures i < |path| && path[i] in node.children ==> Leads(path, i + 1, node.children[path[i]])
      ensures i < |path| && path[i] !in node.children ==> path[..i + 1] !in nodes
    {
      if i < |path| {
        assert path[..i + 1] == path[..i] + [path[i]];
      }
    }

    lemma {:induction false} NothingBelow(path: string, i: nat, n: nat)
      requires Valid() && i <= n <= |path| + 1 && i <= |path| && path[..i] !in nodes
      ensures Shorter(entries, path, n) == Shorter(entries, path, i)
      ensures n <= |path| ==> path[..n] !in nodes
    {
      if n > i {
        NothingBelow(path, i, n - 1);
        if n <= |path| {
          assert Front(path[..n]) == path[..n - 1];
        }
      }
    }
  }

  // ---------------------------------------------------------------- what a match contains

  /** The inserted rules whose prefix is a prefix of `path`, in insertion order. */
  function Prefixed(entries: seq<Entry>, path: string): seq<Rule> {
    if entries == [] then []
    else Prefixed(Front(entries), path) + if HasPrefix(path, Last(entries).prefix) then [Last(entries).rule] else []
  }

  /** Whether `prefix` is a prefix of `path` shorter than `n`. */
  predicate ShortPrefix(prefix: string, path: string, n: nat) {
    |prefix| < n && HasPrefix(path, prefix)
  }

  lemma ShortPrefixSteps(prefix: string, path: string, n: nat)
    requires 0 < n <= |path| + 1
    ensures ShortPrefix(prefix, path, n) <==> ShortPrefix(prefix, path, n - 1) || prefix == path[..n - 1]
    ensures !(ShortPrefix(prefix, path, n - 1) && prefix == path[..n - 1])
  {
  }

  function OneIf(b: bool, rule: Rule): multiset<Rule> {
    if b then multiset{rule} else multiset{}
  }

  lemma {:induction false} ShorterGrows(entries: seq<Entry>, path: string, n: nat)
    requires entries != [] && n <= |path| + 1
    ensures multiset(Shorter(entries, path, n)) == multiset(Shorter(Front(entries), path, n))
      + OneIf(ShortPrefix(Last(entries).prefix, path, n), Last(entries).rule)
  {
    if n > 0 {
      var e, here := Last(entries), path[..n - 1];
      ShorterGrows(entries, path, n - 1);
      ShortPrefixSteps(e.prefix, path, n);
      assert multiset(At(entries, here)) == multiset(At(Front(entries), here)) + OneIf(e.prefix == here, e.rule);
      assert OneIf(ShortPrefix(e.prefix, path, n), e.rule)
          == OneIf(ShortPrefix(e.prefix, path, n - 1), e.rule) + OneIf(e.prefix == here, e.rule);
      ConcatBag(Shorter(entries, path, n - 1), At(entries, here));
      ConcatBag(Shorter(Front(entries), path, n - 1), At(Front(entries), here));
      hide ShortPrefix, OneIf, At;
    }
  }

  lemma ConcatBag(a: seq<Rule>, b: seq<Rule>)
    ensures multiset(a + b) == multiset(a) + multiset(b)
  {
  }

  /** A match returns precisely the rules whose prefix is a prefix of the path, each insertion once. */
  lemma {:induction false} HitsArePrefixed(entries: seq<Entry>, path: string)
    ensures multiset(Hits(entries, path)) == multiset(Prefixed(entries, path))
  {
    if entries == [] {
      NoHits(path, |path| + 1);
    } else {
      HitsArePrefixed(Front(entries), path);
      ShorterGrows(entries, path, |path| + 1);
      var more := if HasPrefix(path, Last(entries).prefix) then [Last(entries).rule] else [];
      ConcatBag(Prefixed(Front(entries), path), more);
    }
  }

  lemma {:induction false} NoHits(path: string, n: nat)
    requires n <= |path| + 1
    ensures Shorter([], path, n) == []
  {
    if n > 0 {
      NoHits(path, n - 1);
    }
  }

  // ---------------------------------------------------------------- the order of a match

  /** The insertions under exactly this prefix. */
  function Under(entries: seq<Entry>, prefix: string): seq<Entry> {
    if entries == [] then []
    else Under(Front(entries), prefix) + if Last(entries).prefix == prefix then [Last(entries)] else []
  }

  function RulesOf(entries: seq<Entry>): seq<Rule> {
    seq(|entries|, i requires 0 <= i < |entries| => entries[i].rule)
  }

  lemma RulesJoin(a: seq<Entry>, b: seq<Entry>)
    ensures RulesOf(a + b) == RulesOf(a) + RulesOf(b)
  {
  }

  lemma {:induction false} UnderRules(entries: seq<Entry>, prefix: string)
    ensures RulesOf(Under(entries, prefix)) == At(entries, prefix)
    ensures forall e <- Under(entries, prefix) :: e.prefix == prefix
  {
    if entries != [] {
      var last := if Last(entries).prefix == prefix then [Last(entries)] else [];
      UnderRules(Front(entries), prefix);
      RulesJoin(Under(Front(entries), prefix), last);
      assert RulesOf([Last(entries)]) == [Last(entries).rule];
      hide RulesOf;
    }
  }

  lemma {:induction false} UnderSame(es: seq<Entry>, prefix: string, other: string)
    requires forall e <- es :: e.prefix == prefix
    ensures Under(es, other) == if other == prefix then es else []
  {
    if es != [] {
      assert es == Front(es) + [Last(es)];
      UnderSame(Front(es), prefix, other);
    }
  }

  lemma {:induction false} UnderJoins(a: seq<Entry>, b: seq<Entry>, prefix: string)
    ensures Under(a + b, prefix) == Under(a, prefix) + Under(b, prefix)
    decreases |b|
  {
    if b == [] {
      assert a + b == a;
    } else {
      assert Front(a + b) == a + Front(b);
      UnderJoins(a, Front(b), prefix);
    }
  }

  predicate ByLength(es: seq<Entry>) {
    forall i, j | 0 <= i < j < |es| :: |es[i].prefix| <= |es[j].prefix|
  }

  /** A match goes through insertions in the order of their prefixes' lengths, and through those of one prefix in
      the order in which they were made. */
  lemma HitsInOrder(entries: seq<Entry>, path: string) returns (hits: seq<Entry>)
    ensures RulesOf(hits) == Hits(entries, path) && ByLength(hits)
    ensures forall p :: Under(hits, p) == if HasPrefix(path, p) then Under(entries, p) else []
  {
    hits := ShorterInOrder(entries, path, |path| + 1);
  }

  lemma {:induction false} ShorterInOrder(entries: seq<Entry>, path: string, n: nat) returns (hits: seq<Entry>)
    requires n <= |path| + 1
    ensures RulesOf(hits) == Shorter(entries, path, n) && ByLength(hits) && forall e <- hits :: |e.prefix| < n
    ensures forall p :: Under(hits, p) == if ShortPrefix(p, path, n) then Under(entries, p) else []
  {
    hits := [];
    if n > 0 {
      var here := path[..n - 1];
      var front := ShorterInOrder(entries, path, n - 1);
      var more := Under(entries, here);
      hits := front + more;
      UnderRules(entries, here);
      RulesJoin(front, more);
      LongerLast(front, more, n - 1);
      forall p
        ensures Under(hits, p) == if ShortPrefix(p, path, n) then Under(entries, p) else []
      {
        UnderJoins(front, more, p);
        UnderSame(more, here, p);
        ShortPrefixSteps(p, path, n);
        hide Under, ShortPrefix;
      }
      hide Under, RulesOf, ByLength, ShortPrefix;
    }
  }

  lemma LongerLast(a: seq<Entry>, b: seq<Entry>, n: nat)
    requires ByLength(a) && (forall e <- a :: |e.prefix| < n) && forall e <- b :: |e.prefix| == n
    ensures ByLength(a + b)
  {
    forall i, j | 0 <= i < j < |a + b|
      ensures |(a + b)[i].prefix| <= |(a + b)[j].prefix|
    {
      assert i < |a| ==> (a + b)[i] in a;
      assert i >= |a| ==> (a + b)[i] in b;
      assert j >= |a| ==> (a + b)[j] in b;
    }
  }
}
