/** AclNode and AclTree: the rules as trees of levels, grown in place. */
module AclTrees {
  import opened AclRules

  /** The nodes one level down. */
  datatype Links = Links(children: map<string, AclNode>, plus: AclNode?) {
    predicate Has(level: string) {
      if level == "+" then plus != null else level in children
    }

    function To(level: string): AclNode
      requires Has(level)
    {
      if level == "+" then plus else children[level]
    }

    function With(level: string, node: AclNode): Links {
      if level == "+" then this.(plus := node) else this.(children := children[level := node])
    }
  }

  class AclNode {
    var children: map<string, AclNode>
    var childrenPlus: AclNode?
    var grants: seq<Grant>
    var grantsPound: seq<Grant>
    var hasUserWildcard: bool
    var hasClientidWildcard: bool

    /** The levels that lead here. */
    ghost const path: Levels

    constructor (ghost path: Levels)
      ensures this.path == path
      ensures Blank()
    {
      this.path := path;
      children, childrenPlus, grants, grantsPound := map[], null, [], [];
      hasUserWildcard, hasClientidWildcard := false, false;
    }

    ghost predicate Blank()
      reads this
    {
      children == map[] && childrenPlus == null && grants == [] && grantsPound == [] && !hasUserWildcard && !hasClientidWildcard
    }

    ghost function Out(): Links
      reads this
    {
      Links(children, childrenPlus)
    }

    /** AclNode::getChildren, which makes the node if it is not there. */
    method GetChildren(subtopic: string, registerPattern: bool) returns (node: AclNode)
      requires subtopic != "+"
      modifies this`children, this`hasUserWildcard, this`hasClientidWildcard
      ensures if old(Out()).Has(subtopic) then node == old(Out()).To(subtopic) && unchanged(this)
              else
                && fresh(node) && node.path == path + [subtopic] && node.Blank() && Out() == old(Out()).With(subtopic, node)
                && hasUserWildcard == (old(hasUserWildcard) || (registerPattern && subtopic == "%u"))
                && hasClientidWildcard == (old(hasClientidWildcard) || (registerPattern && subtopic == "%c"))
    {
      if subtopic !in children {
        node := new AclNode(path + [subtopic]);
        children := children[subtopic := node];
        if registerPattern {
          if subtopic == "%u" {
            hasUserWildcard := true;
          }
          if subtopic == "%c" {
            hasClientidWildcard := true;
          }
        }
      }
      node := children[subtopic];
    }

    method GetChildrenPlus() returns (node: AclNode)
      modifies this`childrenPlus
      ensures if old(Out()).Has("+") then node == old(Out()).To("+") && unchanged(this)
              else fresh(node) && node.path == path + ["+"] && node.Blank() && Out() == old(Out()).With("+", node)
    {
      if childrenPlus == null {
        childrenPlus := new AclNode(path + ["+"]);
      }
      node := childrenPlus;
    }

    method AddGrant(grant: Grant)
      modifies this`grants
      ensures grants == old(grants) + [grant]
    {
      grants := grants + [grant];
    }

    method AddGrantPound(grant: Grant)
      modifies this`grantsPound
      ensures grantsPound == old(grantsPound) + [grant]
    {
      grantsPound := grantsPound + [grant];
    }
  }

  // ---------- what a tree keeps ----------

  /** The nodes of a tree by their paths. */
  type Nodes = map<Levels, AclNode>

  ghost predicate LinksOk(path: Levels, out: Links, nodes: Nodes) {
    && "#" !in path && "+" !in out.children && "#" !in out.children
    && (forall level :: out.Has(level) <==> path + [level] in nodes)
    && (forall level :: out.Has(level) ==> out.To(level) == nodes[path + [level]])
  }

  /** One node of the tree for `rules`. */
  ghost predicate NodeOk(n: AclNode, nodes: Nodes, rules: seq<Rule>, patterns: bool)
    reads n
  {
    && LinksOk(n.path, n.Out(), nodes)
    && n.hasUserWildcard == (patterns && n.Out().Has("%u")) && n.hasClientidWildcard == (patterns && n.Out().Has("%c"))
    && n.grants == GrantsAt(rules, n.path, false) && n.grantsPound == GrantsAt(rules, n.path, true)
    && (forall level :: level != "#" && GoesOn(rules, n.path, level) ==> n.Out().Has(level))
  }

  ghost predicate TrieOk(nodes: Nodes, rules: seq<Rule>, patterns: bool)
    reads nodes.Values
  {
    && [] in nodes && (forall p :: p in nodes && p != [] ==> p[..|p| - 1] in nodes)
    && (forall p :: p in nodes ==> nodes[p].path == p && NodeOk(nodes[p], nodes, rules, patterns))
  }

  lemma SnocInjective(p: Levels, k: string, q: Levels, l: string)
    requires p + [k] == q + [l]
    ensures p == q && k == l
  {
    assert (p + [k])[..|p|] == p && (q + [l])[..|q|] == q;
    assert (p + [k])[|p|] == k && (q + [l])[|q|] == l;
  }

  /** A node that is not there has no rules through it. */
  lemma NoRulesYet(rules: seq<Rule>, path: Levels, level: string)
    requires !GoesOn(rules, path, level)
    ensures GrantsAt(rules, path + [level], false) == [] && GrantsAt(rules, path + [level], true) == []
    ensures forall next :: !GoesOn(rules, path + [level], next)
  {
  }

  lemma {:induction false} NoGrants(rules: seq<Rule>, path: Levels)
    requires forall r :: r in rules ==> !Through(r.filter, path)
    ensures GrantsAt(rules, path, false) == [] && GrantsAt(rules, path, true) == []
  {
    if rules != [] {
      assert rules[|rules| - 1] in rules;
      NoGrants(rules[..|rules| - 1], path);
    }
  }

  lemma OtherStays(q: Levels, out: Links, nodes: Nodes, path: Levels, level: string, c: AclNode)
    requires LinksOk(q, out, nodes) && q != path
    ensures LinksOk(q, out, nodes[path + [level] := c])
  {
    forall l: string ensures q + [l] != path + [level] {
      if q + [l] == path + [level] {
        SnocInjective(q, l, path, level);
      }
    }
  }

  lemma ChildOk(c: AclNode, nodes: Nodes, path: Levels, level: string, rules: seq<Rule>, patterns: bool)
    requires c.Blank() && c.path == path + [level] && "#" !in path && level != "#"
    requires !GoesOn(rules, path, level) && c.path !in nodes && forall p :: p in nodes && p != [] ==> p[..|p| - 1] in nodes
    ensures NodeOk(c, nodes[c.path := c], rules, patterns)
  {
    NoRulesYet(rules, path, level);
    forall l: string ensures c.path + [l] !in nodes[c.path := c] {
      assert (c.path + [l])[..|c.path|] == c.path;
    }
  }

  lemma ParentStays(path: Levels, out: Links, nodes: Nodes, level: string, c: AclNode)
    requires LinksOk(path, out, nodes) && !out.Has(level) && level != "#"
    ensures LinksOk(path, out.With(level, c), nodes[path + [level] := c])
    ensures forall l :: out.With(level, c).Has(l) <==> out.Has(l) || l == level
  {
    forall l: string ensures path + [l] == path + [level] <==> l == level {
      if path + [l] == path + [level] {
        SnocInjective(path, l, path, level);
      }
    }
  }

  /** The tree is well-formed again once a new node hangs below `n`, which had the links `out`. */
  lemma Regrown(n: AclNode, out: Links, level: string, next: AclNode, nodes: Nodes, rules: seq<Rule>, patterns: bool)
    requires n.path in nodes && nodes[n.path] == n && level != "#" && next.path == n.path + [level] && next.Blank()
    requires [] in nodes && forall p :: p in nodes && p != [] ==> p[..|p| - 1] in nodes
    requires OthersOk(nodes, n.path, rules, patterns)
    requires LinksOk(n.path, out, nodes) && !out.Has(level) && n.Out() == out.With(level, next)
    requires n.hasUserWildcard == (patterns && (out.Has("%u") || level == "%u"))
    requires n.hasClientidWildcard == (patterns && (out.Has("%c") || level == "%c"))
    requires n.grants == GrantsAt(rules, n.path, false) && n.grantsPound == GrantsAt(rules, n.path, true)
    requires forall l :: l != "#" && GoesOn(rules, n.path, l) ==> out.Has(l)
    ensures TrieOk(nodes[next.path := next], rules, patterns)
  {
    var nodes' := nodes[next.path := next];
    assert next.path[..|next.path| - 1] == n.path;
    ParentStays(n.path, out, nodes, level, next);
    ChildOk(next, nodes, n.path, level, rules, patterns);
    forall p | p in nodes' ensures nodes'[p].path == p && NodeOk(nodes'[p], nodes', rules, patterns) {
      if p != next.path && p != n.path {
        OtherStays(p, nodes[p].Out(), nodes, n.path, level, next);
      }
    }
  }

  /** The node for the level, made if it is not there. */
  method Child(n: AclNode, subtop: string, patterns: bool) returns (next: AclNode)
    requires subtop != "#"
    modifies n`children, n`childrenPlus, n`hasUserWildcard, n`hasClientidWildcard
    ensures if old(n.Out()).Has(subtop) then next == old(n.Out()).To(subtop) && unchanged(n)
            else fresh(next) && next.path == n.path + [subtop] && next.Blank() && n.Out() == old(n.Out()).With(subtop, next)
    ensures n.hasUserWildcard == (old(n.hasUserWildcard) || (!old(n.Out()).Has(subtop) && patterns && subtop == "%u"))
    ensures n.hasClientidWildcard == (old(n.hasClientidWildcard) || (!old(n.Out()).Has(subtop) && patterns && subtop == "%c"))
  {
    if subtop == "+" {
      next := n.GetChildrenPlus();
    } else {
      next := n.GetChildren(subtop, patterns);
    }
  }

  ghost predicate OthersOk(nodes: Nodes, path: Levels, rules: seq<Rule>, patterns: bool)
    reads set p | p in nodes && p != path :: nodes[p]
  {
    forall p :: p in nodes && p != path ==> nodes[p].path == p && NodeOk(nodes[p], nodes, rules, patterns)
  }

  lemma OneAndOthers(n: AclNode, nodes: Nodes, rules: seq<Rule>, patterns: bool)
    requires n.path in nodes && nodes[n.path] == n
    ensures TrieOk(nodes, rules, patterns) ==> NodeOk(n, nodes, rules, patterns) && OthersOk(nodes, n.path, rules, patterns)
    ensures (NodeOk(n, nodes, rules, patterns) && OthersOk(nodes, n.path, rules, patterns)
             && [] in nodes && forall p :: p in nodes && p != [] ==> p[..|p| - 1] in nodes) ==> TrieOk(nodes, rules, patterns)
    ensures TrieOk(nodes, rules, patterns) ==> n !in (set p | p in nodes && p != n.path :: nodes[p])
  {
  }

  lemma ValuesGrow(nodes: Nodes, path: Levels, next: AclNode)
    requires path in nodes ==> nodes[path] == next
    ensures nodes[path := next].Values == nodes.Values + {next}
    ensures path in nodes ==> nodes[path := next] == nodes && next in nodes.Values
  {
    var nodes' := nodes[path := next];
    assert nodes'[path] == next;
    assert forall p :: p in nodes ==> nodes'[p] == nodes[p];
  }

  /** Going one level down, where the node is made if it is not there. */
  method Descend(n: AclNode, subtop: string, ghost nodes: Nodes, ghost rules: seq<Rule>, patterns: bool)
    returns (next: AclNode, ghost nodes': Nodes)
    requires TrieOk(nodes, rules, patterns) && n.path in nodes && nodes[n.path] == n && subtop != "#"
    modifies n`children, n`childrenPlus, n`hasUserWildcard, n`hasClientidWildcard
    ensures TrieOk(nodes', rules, patterns) && next.path == n.path + [subtop] && nodes' == nodes[next.path := next]
    ensures nodes.Values <= nodes'.Values && fresh(nodes'.Values - nodes.Values)
  {
    ghost var out := n.Out();
    OneAndOthers(n, nodes, rules, patterns);
    next := Child(n, subtop, patterns);
    nodes' := nodes[n.path + [subtop] := next];
    ValuesGrow(nodes, n.path + [subtop], next);
    if out.Has(subtop) {
      OneAndOthers(n, nodes, rules, patterns);
      assert nodes' == nodes;
    } else {
      Regrown(n, out, subtop, next, nodes, rules, patterns);
    }
  }

  // ---------- adding a rule ----------

  /** There are nodes along the whole filter, up to its `#` if it has one. */
  ghost predicate Walked(nodes: Nodes, filter: Levels) {
    forall p, level :: p in nodes && level != "#" && Through(filter, p + [level]) ==> p + [level] in nodes
  }

  /** The rule belongs at this node: its filter ends here, or has its `#` here. */
  predicate BelongsAt(r: Rule, path: Levels, pound: bool) {
    if pound then PoundAt(r, path) else EndsAt(r, path)
  }

  lemma BelongsOnce(r: Rule, path: Levels, pound: bool, other: Levels, pound': bool)
    requires BelongsAt(r, path, pound) && BelongsAt(r, other, pound') && "#" !in path && "#" !in other
    ensures path == other && pound == pound'
  {
  }

  lemma GoesOnSnoc(rules: seq<Rule>, r: Rule, path: Levels, level: string)
    ensures GoesOn(rules + [r], path, level) <==> GoesOn(rules, path, level) || Through(r.filter, path + [level])
  {
  }

  lemma StillOk(m: AclNode, nodes: Nodes, rules: seq<Rule>, r: Rule, path: Levels, pound: bool, patterns: bool)
    requires NodeOk(m, nodes, rules, patterns) && m.path in nodes && Walked(nodes, r.filter) && BelongsAt(r, path, pound)
    requires m.path != path && "#" !in path
    ensures NodeOk(m, nodes, rules + [r], patterns)
  {
    GrantsAtSnoc(rules, r, m.path, false);
    GrantsAtSnoc(rules, r, m.path, true);
    if BelongsAt(r, m.path, false) {
      BelongsOnce(r, path, pound, m.path, false);
    }
    if BelongsAt(r, m.path, true) {
      BelongsOnce(r, path, pound, m.path, true);
    }
    forall level | level != "#" && GoesOn(rules + [r], m.path, level) ensures m.Out().Has(level) {
      GoesOnSnoc(rules, r, m.path, level);
    }
  }

  /** The node where the rule belongs, after its grant was added there. */
  lemma HereOk(n: AclNode, nodes: Nodes, rules: seq<Rule>, r: Rule, pound: bool, patterns: bool)
    requires LinksOk(n.path, n.Out(), nodes) && n.path in nodes && Walked(nodes, r.filter) && BelongsAt(r, n.path, pound)
    requires n.hasUserWildcard == (patterns && n.Out().Has("%u")) && n.hasClientidWildcard == (patterns && n.Out().Has("%c"))
    requires n.grants == GrantsAt(rules, n.path, false) + if pound then [] else [r.grant]
    requires n.grantsPound == GrantsAt(rules, n.path, true) + if pound then [r.grant] else []
    requires forall level :: level != "#" && GoesOn(rules, n.path, level) ==> n.Out().Has(level)
    ensures NodeOk(n, nodes, rules + [r], patterns)
  {
  }

  lemma GrantedOk(n: AclNode, nodes: Nodes, rules: seq<Rule>, r: Rule, pound: bool, patterns: bool)
    requires n.path in nodes && nodes[n.path] == n && Walked(nodes, r.filter) && BelongsAt(r, n.path, pound)
    requires OthersOk(nodes, n.path, rules, patterns) && NodeOk(n, nodes, rules + [r], patterns)
    requires [] in nodes && forall p :: p in nodes && p != [] ==> p[..|p| - 1] in nodes
    ensures TrieOk(nodes, rules + [r], patterns)
  {
    forall p | p in nodes && p != n.path ensures NodeOk(nodes[p], nodes, rules + [r], patterns) {
      StillOk(nodes[p], nodes, rules, r, n.path, pound, patterns);
    }
    OneAndOthers(n, nodes, rules + [r], patterns);
  }

  method GrantHere(n: AclNode, grant: Grant, pound: bool, ghost r: Rule, ghost nodes: Nodes, ghost rules: seq<Rule>, ghost patterns: bool)
    requires TrieOk(nodes, rules, patterns) && n.path in nodes && nodes[n.path] == n
    requires Walked(nodes, r.filter) && BelongsAt(r, n.path, pound) && r.grant == grant
    modifies n`grants, n`grantsPound
    ensures TrieOk(nodes, rules + [r], patterns)
  {
    OneAndOthers(n, nodes, rules, patterns);
    assert n.grants + [] == n.grants && n.grantsPound + [] == n.grantsPound;
    if pound {
      n.AddGrantPound(grant);
    } else {
      n.AddGrant(grant);
    }
    HereOk(n, nodes, rules, r, pound, patterns);
    GrantedOk(n, nodes, rules, r, pound, patterns);
  }

  /** The nodes on the way to the i-th level. */
  ghost predicate Prefixes(nodes: Nodes, subtopics: Levels, i: nat)
    requires i <= |subtopics|
  {
    forall j :: 0 <= j <= i ==> subtopics[..j] in nodes
  }

  lemma PrefixSnoc(levels: Levels, i: nat)
    requires i < |levels|
    ensures levels[..i + 1] == levels[..i] + [levels[i]] && levels[i..] == [levels[i]] + levels[i + 1..]
  {
  }

  lemma PrefixesGrow(nodes: Nodes, nodes': Nodes, subtopics: Levels, i: nat)
    requires i < |subtopics| && Prefixes(nodes, subtopics, i) && nodes.Keys <= nodes'.Keys && subtopics[..i + 1] in nodes'
    ensures Prefixes(nodes', subtopics, i + 1)
  {
  }

  lemma WalkedAll(nodes: Nodes, filter: Levels, i: nat)
    requires i <= |filter| && Prefixes(nodes, filter, i)
    requires i == |filter| || filter[i] == "#"
    requires forall p :: p in nodes ==> "#" !in p
    ensures Walked(nodes, filter)
  {
  }

  lemma NoPoundIn(nodes: Nodes, rules: seq<Rule>, patterns: bool)
    requires TrieOk(nodes, rules, patterns)
    ensures forall p :: p in nodes ==> "#" !in p
  {
    forall p | p in nodes ensures "#" !in p {
      assert NodeOk(nodes[p], nodes, rules, patterns);
    }
  }

  /** The loop of AclTree::addTopic: to the end of the filter, or to the node of its `#`. */
  method Walk(root: AclNode, subtopics: Levels, patterns: bool, ghost nodes0: Nodes, ghost rules: seq<Rule>)
    returns (curEnd: AclNode, pound: bool, ghost nodes: Nodes)
    requires TrieOk(nodes0, rules, patterns) && nodes0[[]] == root
    modifies nodes0.Values
    ensures TrieOk(nodes, rules, patterns) && nodes[[]] == root && nodes0.Values <= nodes.Values && fresh(nodes.Values - nodes0.Values)
    ensures curEnd.path in nodes && nodes[curEnd.path] == curEnd
    ensures exists i: nat :: i <= |subtopics| && curEnd.path == subtopics[..i] && Prefixes(nodes, subtopics, i)
                             && if pound then i < |subtopics| && subtopics[i] == "#" else i == |subtopics|
  {
    nodes := nodes0;
    curEnd, pound := root, false;
    for i := 0 to |subtopics|
      invariant TrieOk(nodes, rules, patterns) && nodes[[]] == root
      invariant nodes0.Values <= nodes.Values && fresh(nodes.Values - nodes0.Values)
      invariant curEnd.path == subtopics[..i] && curEnd.path in nodes && nodes[curEnd.path] == curEnd && !pound
      invariant Prefixes(nodes, subtopics, i)
    {
      var subtop := subtopics[i];
      if subtop == "#" {
        pound := true;
        return;
      }
      PrefixSnoc(subtopics, i);
      ghost var before := nodes;
      curEnd, nodes := Descend(curEnd, subtop, nodes, rules, patterns);
      PrefixesGrow(before, nodes, subtopics, i);
    }
  }

  lemma EndBelongs(nodes: Nodes, rules: seq<Rule>, patterns: bool, r: Rule, path: Levels, pound: bool, i: nat)
    requires TrieOk(nodes, rules, patterns) && i <= |r.filter| && path == r.filter[..i] && Prefixes(nodes, r.filter, i)
    requires if pound then i < |r.filter| && r.filter[i] == "#" else i == |r.filter|
    ensures Walked(nodes, r.filter) && BelongsAt(r, path, pound)
  {
    NoPoundIn(nodes, rules, patterns);
    WalkedAll(nodes, r.filter, i);
    if !pound {
      assert r.filter[..i] == r.filter;
    }
  }

  /** AclTree::addTopic in the tree that was chosen. */
  method AddTopicTo(root: AclNode, subtopics: Levels, aclGrant: Grant, patterns: bool, ghost nodes0: Nodes, ghost rules: seq<Rule>)
    returns (ghost nodes: Nodes)
    requires TrieOk(nodes0, rules, patterns) && nodes0[[]] == root
    modifies nodes0.Values
    ensures TrieOk(nodes, rules + [Rule(subtopics, aclGrant)], patterns) && nodes[[]] == root
    ensures nodes0.Values <= nodes.Values && fresh(nodes.Values - nodes0.Values)
  {
    var curEnd, pound;
    curEnd, pound, nodes := Walk(root, subtopics, patterns, nodes0, rules);
    ghost var r := Rule(subtopics, aclGrant);
    ghost var i: nat :| i <= |subtopics| && curEnd.path == subtopics[..i] && Prefixes(nodes, subtopics, i)
                        && if pound then i < |subtopics| && subtopics[i] == "#" else i == |subtopics|;
    EndBelongs(nodes, rules, patterns, r, curEnd.path, pound, i);
    GrantHere(curEnd, aclGrant, pound, r, nodes, rules, patterns);
  }

  // ---------- looking up ----------

  lemma NodeFinds(n: AclNode, nodes: Nodes, rules: seq<Rule>, patterns: bool)
    requires NodeOk(n, nodes, rules, patterns)
    ensures (set g | g in n.grants) == Ends(rules, n.path) && (set g | g in n.grantsPound) == Pounds(rules, n.path)
  {
  }

  function Members(grants: seq<Grant>): set<Grant> {
    set g | g in grants
  }

  lemma NodeAt(n: AclNode, nodes: Nodes, rules: seq<Rule>, patterns: bool)
    requires TrieOk(nodes, rules, patterns) && n.path in nodes && nodes[n.path] == n
    ensures NodeOk(n, nodes, rules, patterns)
    ensures forall level :: n.Out().Has(level) ==>
      n.path + [level] in nodes && n.Out().To(level) == nodes[n.path + [level]] && n.Out().To(level).path == n.path + [level]
  {
  }

  /** What the branch for one level adds, when it is taken exactly if `go` holds. */
  function Branch(go: bool, rules: seq<Rule>, path: Levels, level: string, rest: Levels, asker: Asker): set<Grant> {
    if go then Found(rules, path + [level], rest, asker) else {}
  }

  function Branches(rules: seq<Rule>, path: Levels, topic: string, rest: Levels, asker: Asker): set<Grant> {
    Branch(topic != "+" && topic != "#", rules, path, topic, rest, asker)
    + Branch(asker.patterns && topic == asker.username, rules, path, "%u", rest, asker)
    + Branch(asker.patterns && topic == asker.clientid, rules, path, "%c", rest, asker)
    + Branch(true, rules, path, "+", rest, asker)
  }

  lemma BranchesFind(rules: seq<Rule>, path: Levels, topic: string, rest: Levels, asker: Asker)
    ensures Found(rules, path, [topic] + rest, asker) == Pounds(rules, path) + Branches(rules, path, topic, rest, asker)
  {
    forall g: Grant ensures g in Found(rules, path, [topic] + rest, asker) <==> g in Pounds(rules, path) || Leads(g, rules, path, topic, rest, asker) {
      FoundNext(rules, path, topic, rest, asker, g);
    }
  }

  lemma SetAssoc(a: set<Grant>, b: set<Grant>, c: set<Grant>)
    ensures (a + b) + c == a + (b + c)
  {
  }

  lemma SetAssoc4(m: set<Grant>, a: set<Grant>, b: set<Grant>, c: set<Grant>, d: set<Grant>)
    ensures m + a + b + c + d == m + (a + b + c + d)
  {
  }

  lemma MembersPlus(a: seq<Grant>, b: seq<Grant>)
    ensures Members(a + b) == Members(a) + Members(b)
  {
  }

  /** A branch that is only taken where there is a node finds the same. */
  lemma BranchSkipped(node: AclNode, nodes: Nodes, rules: seq<Rule>, go: bool, level: string, rest: Levels, asker: Asker)
    requires NodeOk(node, nodes, rules, asker.patterns) && level != "#"
    ensures Branch(go, rules, node.path, level, rest, asker) == Branch(go && node.Out().Has(level), rules, node.path, level, rest, asker)
  {
  }

  lemma CollectsAtEnd(collected: seq<Grant>, node: AclNode, nodes: Nodes, rules: seq<Rule>, asker: Asker)
    requires NodeOk(node, nodes, rules, asker.patterns)
    ensures Members(collected + node.grants + node.grantsPound) == Members(collected) + Found(rules, node.path, [], asker)
  {
    NodeFinds(node, nodes, rules, asker.patterns);
    FoundHere(rules, node.path, asker);
    MembersPlus(collected, node.grants);
    MembersPlus(collected + node.grants, node.grantsPound);
  }

  lemma CollectsPound(collected: seq<Grant>, node: AclNode, nodes: Nodes, rules: seq<Rule>, asker: Asker)
    requires NodeOk(node, nodes, rules, asker.patterns)
    ensures Members(collected + node.grantsPound) == Members(collected) + Pounds(rules, node.path)
  {
  }

  /** AclTree::findPermissionRecursive: appends what the rules through this node grant to the rest of the topic. */
  method FindPermissionRecursive(subtopics: Levels, cur: nat, node: AclNode, collected: seq<Grant>, asker: Asker,
                                 ghost nodes: Nodes, ghost rules: seq<Rule>) returns (collected': seq<Grant>)
    requires cur <= |subtopics| && TrieOk(nodes, rules, asker.patterns) && node.path in nodes && nodes[node.path] == node
    ensures Members(collected') == Members(collected) + Found(rules, node.path, subtopics[cur..], asker)
    decreases |subtopics| - cur, 2
  {
    NodeAt(node, nodes, rules, asker.patterns);
    if cur == |subtopics| {
      assert subtopics[cur..] == [];
      CollectsAtEnd(collected, node, nodes, rules, asker);
      collected' := collected + node.grants + node.grantsPound;
    } else {
      CollectsPound(collected, node, nodes, rules, asker);
      PrefixSnoc(subtopics, cur);
      BranchesFind(rules, node.path, subtopics[cur], subtopics[cur + 1..], asker);
      SetAssoc(Members(collected), Pounds(rules, node.path), Branches(rules, node.path, subtopics[cur], subtopics[cur + 1..], asker));
      collected' := FollowLevels(subtopics, cur, node, collected + node.grantsPound, asker, nodes, rules);
    }
  }

  /** The branches for the next level. */
  method FollowLevels(subtopics: Levels, cur: nat, node: AclNode, collected: seq<Grant>, asker: Asker,
                      ghost nodes: Nodes, ghost rules: seq<Rule>) returns (collected': seq<Grant>)
    requires cur < |subtopics| && TrieOk(nodes, rules, asker.patterns) && node.path in nodes && nodes[node.path] == node
    ensures Members(collected') == Members(collected) + Branches(rules, node.path, subtopics[cur], subtopics[cur + 1..], asker)
    decreases |subtopics| - cur, 1
  {
    NodeAt(node, nodes, rules, asker.patterns);
    var topic := subtopics[cur];
    ghost var rest := subtopics[cur + 1..];
    if topic != "#" {
      BranchSkipped(node, nodes, rules, topic != "+", topic, rest, asker);
    }
    BranchSkipped(node, nodes, rules, asker.patterns && topic == asker.username, "%u", rest, asker);
    BranchSkipped(node, nodes, rules, asker.patterns && topic == asker.clientid, "%c", rest, asker);
    BranchSkipped(node, nodes, rules, true, "+", rest, asker);
    SetAssoc4(Members(collected), Branch(topic != "+" && topic != "#", rules, node.path, topic, rest, asker),
              Branch(asker.patterns && topic == asker.username, rules, node.path, "%u", rest, asker),
              Branch(asker.patterns && topic == asker.clientid, rules, node.path, "%c", rest, asker),
              Branch(true, rules, node.path, "+", rest, asker));
    collected' := Follow(topic in node.children, topic, subtopics, cur, node, collected, asker, nodes, rules);
    collected' := Follow(node.hasUserWildcard && topic == asker.username, "%u", subtopics, cur, node, collected', asker, nodes, rules);
    collected' := Follow(node.hasClientidWildcard && topic == asker.clientid, "%c", subtopics, cur, node, collected', asker, nodes, rules);
    collected' := Follow(node.childrenPlus != null, "+", subtopics, cur, node, collected', asker, nodes, rules);
  }

  /** One of them. */
  method Follow(go: bool, level: string, subtopics: Levels, cur: nat, node: AclNode, collected: seq<Grant>, asker: Asker,
                ghost nodes: Nodes, ghost rules: seq<Rule>) returns (collected': seq<Grant>)
    requires cur < |subtopics| && TrieOk(nodes, rules, asker.patterns) && node.path in nodes && nodes[node.path] == node
    requires go ==> node.Out().Has(level)
    ensures Members(collected') == Members(collected) + Branch(go, rules, node.path, level, subtopics[cur + 1..], asker)
    decreases |subtopics| - cur, 0
  {
    collected' := collected;
    if go {
      NodeAt(node, nodes, rules, asker.patterns);
      var sub_node := if level == "+" then node.childrenPlus else node.children[level];
      collected' := FindPermissionRecursive(subtopics, cur + 1, sub_node, collected, asker, nodes, rules);
    }
  }

  // ---------- the trees ----------

  datatype AclTopicType = Strings | Patterns

  datatype AuthResult = Success | AclDenied

  /** Whose rules: everyone's patterns, those of clients without a name, or a user's. */
  datatype Owner = AllUsers | Anonymous | User(name: string)

  function OwnerOf(topicType: AclTopicType, username: string): Owner {
    if topicType == Patterns then AllUsers else if username != "" then User(username) else Anonymous
  }

  /** One call of addTopic; `subtopics` is the pattern split at its slashes. */
  datatype Call = Call(subtopics: Levels, grant: Grant, topicType: AclTopicType, username: string) {
    function Tree(): Owner {
      OwnerOf(topicType, username)
    }

    function AsRule(): Rule {
      Rule(subtopics, grant)
    }
  }

  /** The rules of one owner, in the order they were added. */
  function RulesOf(calls: seq<Call>, owner: Owner): seq<Rule> {
    if calls == [] then []
    else
      var last := calls[|calls| - 1];
      RulesOf(calls[..|calls| - 1], owner) + if last.Tree() == owner then [last.AsRule()] else []
  }

  lemma RulesOfSnoc(calls: seq<Call>, c: Call, owner: Owner)
    ensures RulesOf(calls + [c], owner) == if c.Tree() == owner then RulesOf(calls, owner) + [c.AsRule()] else RulesOf(calls, owner)
  {
  }

  lemma EmptyTrie(root: AclNode, patterns: bool)
    requires root.path == [] && root.Blank()
    ensures TrieOk(map[[] := root], [], patterns)
  {
  }

  /** The nodes of all trees by their owners. */
  type Forest = map<Owner, Nodes>

  ghost function TreeOf(trees: Forest, owner: Owner): Nodes {
    if owner in trees then trees[owner] else map[]
  }

  ghost function AllNodes(trees: Forest): set<AclNode> {
    set owner, n | owner in trees && n in TreeOf(trees, owner).Values :: n
  }

  /** No two trees have a node in common. */
  ghost predicate Apart(trees: Forest) {
    forall owner, other :: owner != other ==> TreeOf(trees, owner).Values !! TreeOf(trees, other).Values
  }

  /**
   Stands in front of a definition that has many consequences, so that a proof which only hands the
   fact on does not unfold it: what is said "for every k with Open(k)" is unfolded by naming an Open(k).
   */
  predicate Open(k: nat) {
    true
  }

  /** The tree for an owner's rules; no tree, no rules. */
  ghost predicate TreeOk(nodes: Nodes, rules: seq<Rule>, patterns: bool)
    reads nodes.Values
  {
    forall k: nat {:trigger Open(k)} :: Open(k) ==> if nodes == map[] then rules == [] else TrieOk(nodes, rules, patterns)
  }

  lemma OpenTree(nodes: Nodes, rules: seq<Rule>, patterns: bool)
    requires TreeOk(nodes, rules, patterns)
    ensures if nodes == map[] then rules == [] else TrieOk(nodes, rules, patterns)
  {
    assert Open(0);
  }

  lemma Inside(trees: Forest, owner: Owner)
    ensures TreeOf(trees, owner).Values <= AllNodes(trees)
    ensures Apart(trees) ==> forall other :: other != owner ==> TreeOf(trees, other).Values <= AllNodes(trees) - TreeOf(trees, owner).Values
  {
  }

  ghost predicate OthersTreesOk(trees: Forest, calls: seq<Call>, owner: Owner)
    requires Apart(trees)
    reads AllNodes(trees) - TreeOf(trees, owner).Values
  {
    Inside(trees, owner);
    forall other :: other != owner ==> TreeOk(TreeOf(trees, other), RulesOf(calls, other), other == AllUsers)
  }

  ghost predicate ForestOk(trees: Forest, calls: seq<Call>, owner: Owner)
    reads AllNodes(trees)
  {
    Inside(trees, owner);
    forall k: nat {:trigger Open(k)} :: Open(k) ==>
      Apart(trees) && OthersTreesOk(trees, calls, owner) && TreeOk(TreeOf(trees, owner), RulesOf(calls, owner), owner == AllUsers)
  }

  lemma OpenForest(trees: Forest, calls: seq<Call>, owner: Owner)
    requires ForestOk(trees, calls, owner)
    ensures Apart(trees) && OthersTreesOk(trees, calls, owner) && TreeOk(TreeOf(trees, owner), RulesOf(calls, owner), owner == AllUsers)
  {
    assert Open(0);
  }

  /** Whose tree is looked at first makes no difference. */
  lemma AnyOwner(trees: Forest, calls: seq<Call>, owner: Owner, other: Owner)
    requires ForestOk(trees, calls, owner)
    ensures ForestOk(trees, calls, other)
  {
  }

  /** One tree is replaced by one that has grown by new nodes. */
  lemma TreeReplaced(trees: Forest, owner: Owner, nodes: Nodes, added: set<AclNode>)
    requires Apart(trees) && nodes.Values <= TreeOf(trees, owner).Values + added && added !! AllNodes(trees)
    ensures Apart(trees[owner := nodes]) && AllNodes(trees[owner := nodes]) <= AllNodes(trees) + added
    ensures forall other :: other != owner ==> TreeOf(trees[owner := nodes], other) == TreeOf(trees, other)
  {
    var trees' := trees[owner := nodes];
    Inside(trees, owner);
    forall o: Owner, other: Owner | o != other ensures TreeOf(trees', o).Values !! TreeOf(trees', other).Values {
      assert TreeOf(trees, o).Values !! TreeOf(trees, other).Values;
    }
    forall o, n | o in trees' && n in TreeOf(trees', o).Values ensures n in AllNodes(trees) + added {
      Inside(trees, o);
    }
  }

  lemma ForestGrew(trees: Forest, calls: seq<Call>, owner: Owner, nodes: Nodes, c: Call, added: set<AclNode>)
    requires Apart(trees) && OthersTreesOk(trees, calls, owner)
    requires nodes.Values <= TreeOf(trees, owner).Values + added && added !! AllNodes(trees)
    requires c.Tree() == owner && TreeOk(nodes, RulesOf(calls, owner) + [c.AsRule()], owner == AllUsers)
    ensures ForestOk(trees[owner := nodes], calls + [c], owner)
  {
    TreeReplaced(trees, owner, nodes, added);
    forall other | other != owner ensures RulesOf(calls + [c], other) == RulesOf(calls, other) {
      RulesOfSnoc(calls, c, other);
    }
    RulesOfSnoc(calls, c, owner);
    Inside(trees[owner := nodes], owner);
  }

  lemma ForestRooted(trees: Forest, calls: seq<Call>, owner: Owner, root: AclNode)
    requires Apart(trees) && OthersTreesOk(trees, calls, owner) && RulesOf(calls, owner) == []
    requires TreeOf(trees, owner) == map[] && root !in AllNodes(trees) && root.path == [] && root.Blank()
    ensures ForestOk(trees[owner := map[[] := root]], calls, owner)
    ensures AllNodes(trees[owner := map[[] := root]]) <= AllNodes(trees) + {root}
  {
    var nodes: Nodes := map[[] := root];
    OneNode(nodes, root);
    EmptyTrie(root, owner == AllUsers);
    TreeReplaced(trees, owner, nodes, {root});
    Inside(trees[owner := nodes], owner);
  }

  lemma OneNode(nodes: Nodes, root: AclNode)
    requires nodes == map[[] := root]
    ensures nodes.Values == {root}
  {
    assert nodes[[]] == root;
  }

  lemma EmptyForest()
    ensures ForestOk(map[], [], Anonymous)
  {
  }

  /** The trees hang from the roots that the class has for them. */
  ghost predicate RootsOk(trees: Forest, rootAnonymous: AclNode, rootPatterns: AclNode, rootPerUser: map<string, AclNode>) {
    && RootOf(TreeOf(trees, Anonymous), rootAnonymous) && RootOf(TreeOf(trees, AllUsers), rootPatterns)
    && (forall name :: name in rootPerUser ==> RootOf(TreeOf(trees, User(name)), rootPerUser[name]))
    && (forall name :: name !in rootPerUser ==> TreeOf(trees, User(name)) == map[])
  }

  ghost predicate RootOf(nodes: Nodes, root: AclNode) {
    [] in nodes && nodes[[]] == root
  }

  ghost function FirstForest(a: AclNode, p: AclNode): Forest {
    map[Anonymous := map[[] := a]][AllUsers := map[[] := p]]
  }

  lemma FirstForestOk(a: AclNode, p: AclNode)
    requires a != p && a.path == p.path == [] && a.Blank() && p.Blank()
    ensures ForestOk(FirstForest(a, p), [], Anonymous) && RootsOk(FirstForest(a, p), a, p, map[])
    ensures AllNodes(FirstForest(a, p)) <= {a, p}
  {
    EmptyForest();
    OpenForest(map[], [], Anonymous);
    var one: Forest := map[Anonymous := map[[] := a]];
    assert AllNodes(map[]) == {};
    ForestRooted(map[], [], Anonymous, a);
    AnyOwner(one, [], Anonymous, AllUsers);
    OpenForest(one, [], AllUsers);
    ForestRooted(one, [], AllUsers, p);
    AnyOwner(FirstForest(a, p), [], AllUsers, Anonymous);
  }

  method AddToTree(root: AclNode, subtopics: Levels, aclGrant: Grant, patterns: bool, ghost nodes0: Nodes, ghost rules: seq<Rule>)
    returns (ghost nodes: Nodes)
    requires TreeOk(nodes0, rules, patterns) && RootOf(nodes0, root)
    modifies nodes0.Values
    ensures TreeOk(nodes, rules + [Rule(subtopics, aclGrant)], patterns) && RootOf(nodes, root)
    ensures nodes0.Values <= nodes.Values && fresh(nodes.Values - nodes0.Values)
  {
    OpenTree(nodes0, rules, patterns);
    nodes := AddTopicTo(root, subtopics, aclGrant, patterns, nodes0, rules);
  }

  method GrowForest(root: AclNode, subtopics: Levels, aclGrant: Grant, patterns: bool, ghost trees: Forest, ghost calls: seq<Call>,
                    ghost owner: Owner, ghost c: Call) returns (ghost trees': Forest)
    requires c.Tree() == owner && c.subtopics == subtopics && c.grant == aclGrant
    requires ForestOk(trees, calls, owner) && RootOf(TreeOf(trees, owner), root) && patterns == (owner == AllUsers)
    modifies TreeOf(trees, owner).Values
    ensures ForestOk(trees', calls + [c], Anonymous)
    ensures fresh(AllNodes(trees') - AllNodes(trees)) && RootOf(TreeOf(trees', owner), root)
    ensures forall other :: other != owner ==> TreeOf(trees', other) == TreeOf(trees, other)
  {
    OpenForest(trees, calls, owner);
    Inside(trees, owner);
    ghost var nodes := AddToTree(root, subtopics, aclGrant, patterns, TreeOf(trees, owner), RulesOf(calls, owner));
    assert OthersTreesOk(trees, calls, owner);
    ghost var added := nodes.Values - TreeOf(trees, owner).Values;
    ForestGrew(trees, calls, owner, nodes, c, added);
    TreeReplaced(trees, owner, nodes, added);
    trees' := trees[owner := nodes];
    AnyOwner(trees', calls + [c], owner, Anonymous);
  }

  lemma RootsKept(trees: Forest, trees': Forest, owner: Owner, a: AclNode, p: AclNode, perUser: map<string, AclNode>)
    requires RootsOk(trees, a, p, perUser) && TreeOf(trees, owner) != map[]
    requires forall other :: other != owner ==> TreeOf(trees', other) == TreeOf(trees, other)
    requires [] in TreeOf(trees, owner) && RootOf(TreeOf(trees', owner), TreeOf(trees, owner)[[]])
    ensures RootsOk(trees', a, p, perUser)
  {
  }

  lemma NoTreeNoRules(trees: Forest, calls: seq<Call>, owner: Owner)
    requires ForestOk(trees, calls, owner) && TreeOf(trees, owner) == map[]
    ensures RulesOf(calls, owner) == []
  {
    OpenForest(trees, calls, owner);
    OpenTree(TreeOf(trees, owner), RulesOf(calls, owner), owner == AllUsers);
  }

  class AclTree {
    const rootAnonymous: AclNode
    const rootPatterns: AclNode
    var rootPerUser: map<string, AclNode>
    var collectedPermissions: seq<Grant>

    /** All calls of addTopic so far, and the nodes of the trees they made. */
    ghost var calls: seq<Call>
    ghost var trees: Forest
    ghost var repr: set<AclNode>

    ghost predicate Valid()
      reads this, repr
    {
      AllNodes(trees) <= repr && RootsOk(trees, rootAnonymous, rootPatterns, rootPerUser) && ForestOk(trees, calls, Anonymous)
    }

    constructor ()
      ensures Valid() && calls == [] && fresh(repr)
    {
      var a := new AclNode([]);
      var p := new AclNode([]);
      rootAnonymous, rootPatterns, rootPerUser, collectedPermissions, calls := a, p, map[], [], [];
      trees := FirstForest(a, p);
      repr := {a, p};
      new;
      FirstForestOk(a, p);
    }

    /** The ghost state after a change; the trees may have grown by new nodes. */
    ghost method Note(trees': Forest, calls': seq<Call>, added: set<AclNode>)
      requires RootsOk(trees', rootAnonymous, rootPatterns, rootPerUser) && ForestOk(trees', calls', Anonymous)
      requires AllNodes(trees') <= repr + added
      modifies this`trees, this`calls, this`repr
      ensures Valid() && trees == trees' && calls == calls' && repr == old(repr) + added
    {
      label before:
      trees, calls, repr := trees', calls', repr + added;
      assert forall n: AclNode :: n in AllNodes(trees') ==> unchanged@before(n);
      assert ForestOk(trees', calls', Anonymous);
    }

    /** The tree of a user who has none yet: a root of its own. */
    method NewUser(username: string)
      requires Valid() && username !in rootPerUser
      modifies this`rootPerUser, this`trees, this`calls, this`repr
      ensures Valid() && username in rootPerUser && fresh(repr - old(repr)) && calls == old(calls) && repr >= old(repr)
    {
      AnyOwner(trees, calls, Anonymous, User(username));
      var root := new AclNode([]);
      AddRoot(trees, calls, rootAnonymous, rootPatterns, rootPerUser, username, root);
      rootPerUser := rootPerUser[username := root];
      Note(trees[User(username) := map[[] := root]], calls, {root});
    }

    /** The root of the tree a rule goes into. */
    method RootFor(topicType: AclTopicType, username: string) returns (root: AclNode)
      requires Valid()
      modifies this`rootPerUser, this`trees, this`calls, this`repr
      ensures Valid() && fresh(repr - old(repr)) && calls == old(calls) && repr >= old(repr)
      ensures RootOf(TreeOf(trees, OwnerOf(topicType, username)), root)
    {
      root := rootAnonymous;
      if topicType == Patterns {
        root := rootPatterns;
      } else if username != "" {
        if username !in rootPerUser {
          NewUser(username);
        }
        root := rootPerUser[username];
      }
    }

    method Grow(owner: Owner, root: AclNode, subtopics: Levels, aclGrant: Grant, patterns: bool, ghost c: Call)
      requires c.Tree() == owner && c.subtopics == subtopics && c.grant == aclGrant
      requires Valid() && RootOf(TreeOf(trees, owner), root) && patterns == (owner == AllUsers)
      modifies this`trees, this`calls, this`repr, repr
      ensures Valid() && fresh(repr - old(repr))
      ensures calls == old(calls) + [c]
    {
      AnyOwner(trees, calls, Anonymous, owner);
      Inside(trees, owner);
      ghost var trees' := GrowForest(root, subtopics, aclGrant, patterns, trees, calls, owner, c);
      RootsKept(trees, trees', owner, rootAnonymous, rootPatterns, rootPerUser);
      Note(trees', calls + [c], AllNodes(trees') - AllNodes(trees));
    }

    /** AclTree::addTopic; `subtopics` is the pattern split at its slashes. */
    method AddTopic(subtopics: Levels, aclGrant: Grant, topicType: AclTopicType, username: string)
      requires Valid()
      modifies this`rootPerUser, this`trees, this`calls, this`repr, repr
      ensures Valid() && fresh(repr - old(repr))
      ensures calls == old(calls) + [Call(subtopics, aclGrant, topicType, username)]
    {
      var root := RootFor(topicType, username);
      Grow(OwnerOf(topicType, username), root, subtopics, aclGrant, topicType == Patterns,
           Call(subtopics, aclGrant, topicType, username));
    }

    /** What the rules of an owner grant, appended. */
    method Collect(root: AclNode, subtopics: Levels, asker: Asker, collected: seq<Grant>, ghost owner: Owner) returns (collected': seq<Grant>)
      requires Valid() && RootOf(TreeOf(trees, owner), root) && asker.patterns == (owner == AllUsers)
      ensures Members(collected') == Members(collected) + Granted(RulesOf(calls, owner), subtopics, asker)
    {
      AnyOwner(trees, calls, Anonymous, owner);
      ghost var nodes, rules := TreeOf(trees, owner), RulesOf(calls, owner);
      OpenForest(trees, calls, owner);
      OpenTree(nodes, rules, asker.patterns);
      FoundAtRoot(rules, subtopics, asker);
      assert subtopics[0..] == subtopics;
      NodeAtRoot(nodes, rules, asker.patterns, root);
      collected' := FindPermissionRecursive(subtopics, 0, root, collected, asker, nodes, rules);
    }

    /** The grants of the tree for this user; nothing when there is none. */
    method CollectOwn(subtopics: Levels, username: string, clientid: string) returns (collected: seq<Grant>)
      requires Valid()
      ensures Members(collected) == OwnGrants(calls, subtopics, username, clientid)
    {
      OwnGrantsAre(calls, subtopics, username, clientid);
      collected := [];
      if username == "" {
        collected := Collect(rootAnonymous, subtopics, Asker(false, username, clientid), collected, Anonymous);
      } else if username in rootPerUser {
        collected := Collect(rootPerUser[username], subtopics, Asker(false, username, clientid), collected, User(username));
      } else {
        AnyOwner(trees, calls, Anonymous, User(username));
        NoTreeNoRules(trees, calls, User(username));
      }
    }

    /** First the user's own grants; after a deny among them the patterns are not looked at. */
    method CollectAll(subtopics: Levels, username: string, clientid: string) returns (collected: seq<Grant>)
      requires Valid()
      ensures var own, all := OwnGrants(calls, subtopics, username, clientid), SharedGrants(calls, subtopics, username, clientid);
        Members(collected) == own + if Deny in own then {} else all
    {
      SharedGrantsAre(calls, subtopics, username, clientid);
      collected := CollectOwn(subtopics, username, clientid);
      MembersHave(collected, Deny);
      if Deny in collected {
        return;
      }
      collected := Collect(rootPatterns, subtopics, Asker(true, username, clientid), collected, AllUsers);
    }

    /** AclTree::findPermission. */
    method FindPermission(subtopicsPublish: Levels, access: Grant, username: string, clientid: string) returns (result: AuthResult)
      requires Valid() && (access == Read || access == Write)
      modifies this`collectedPermissions
      ensures Valid() && (result == Success <==> Permitted(calls, subtopicsPublish, access, username, clientid))
    {
      var collected := CollectAll(subtopicsPublish, username, clientid);
      ghost var own := OwnGrants(calls, subtopicsPublish, username, clientid);
      ghost var all := SharedGrants(calls, subtopicsPublish, username, clientid);
      PermittedByGrants(calls, subtopicsPublish, access, username, clientid);
      result := JudgeAll(collected, access, own, all);
      Remember(collected);
    }

    method Remember(collected: seq<Grant>)
      requires Valid()
      modifies this`collectedPermissions
      ensures Valid() && collectedPermissions == collected
    {
      label before:
      collectedPermissions := collected;
      assert forall n: AclNode :: n in AllNodes(trees) ==> unchanged@before(n);
      assert ForestOk(trees, calls, Anonymous);
    }
  }

  /** A rule says something about this client and this topic. A pattern is about every client, whatever name it was added with. */
  predicate Concerns(c: Call, topic: Levels, username: string, clientid: string) {
    match c.topicType
    case Patterns => Matches(c.subtopics, topic, Asker(true, username, clientid))
    case Strings => c.username == username && Matches(c.subtopics, topic, Asker(false, username, clientid))
  }

  predicate Denied(calls: seq<Call>, topic: Levels, username: string, clientid: string) {
    exists c :: c in calls && Concerns(c, topic, username, clientid) && c.grant == Deny
  }

  predicate Given(calls: seq<Call>, topic: Levels, access: Grant, username: string, clientid: string) {
    exists c :: c in calls && Concerns(c, topic, username, clientid) && (c.grant == access || c.grant == ReadWrite)
  }

  /** A client may do it exactly when of the rules that concern it none denies it and one gives the access. */
  predicate Permitted(calls: seq<Call>, topic: Levels, access: Grant, username: string, clientid: string) {
    !Denied(calls, topic, username, clientid) && Given(calls, topic, access, username, clientid)
  }

  /** What one rule more changes; a rule for another name, or for clients without one, changes nothing. */
  lemma OneMoreRule(calls: seq<Call>, c: Call, topic: Levels, access: Grant, username: string, clientid: string)
    requires access == Read || access == Write
    ensures Permitted(calls + [c], topic, access, username, clientid) <==>
      if !Concerns(c, topic, username, clientid) then Permitted(calls, topic, access, username, clientid)
      else if c.grant == Deny then false
      else if c.grant == access || c.grant == ReadWrite then !Denied(calls, topic, username, clientid)
      else Permitted(calls, topic, access, username, clientid)
    ensures c.topicType == Strings && c.username != username ==>
      (Permitted(calls + [c], topic, access, username, clientid) <==> Permitted(calls, topic, access, username, clientid))
    ensures c.topicType == Patterns ==>
      forall name :: Permitted(calls + [c.(username := name)], topic, access, username, clientid)
                     <==> Permitted(calls + [c], topic, access, username, clientid)
  {
    OneMore(calls, c, topic, access, username, clientid);
    forall name | c.topicType == Patterns
      ensures Permitted(calls + [c.(username := name)], topic, access, username, clientid)
              <==> Permitted(calls + [c], topic, access, username, clientid)
    {
      OneMore(calls, c.(username := name), topic, access, username, clientid);
    }
  }

  lemma OneMore(calls: seq<Call>, c: Call, topic: Levels, access: Grant, username: string, clientid: string)
    ensures Denied(calls + [c], topic, username, clientid)
      <==> Denied(calls, topic, username, clientid) || (Concerns(c, topic, username, clientid) && c.grant == Deny)
    ensures Given(calls + [c], topic, access, username, clientid)
      <==> Given(calls, topic, access, username, clientid)
           || (Concerns(c, topic, username, clientid) && (c.grant == access || c.grant == ReadWrite))
  {
    var more := calls + [c];
    assert more[|calls|] == c && forall x :: x in calls ==> x in more;
    assert forall x :: x in more ==> x in calls || x == c;
  }

  /** What the rules for this name grant, or, when it is empty, those without one. */
  function OwnGrants(calls: seq<Call>, topic: Levels, username: string, clientid: string): set<Grant> {
    set c | c in calls && c.topicType == Strings && Concerns(c, topic, username, clientid) :: c.grant
  }

  /** What the patterns grant. */
  function SharedGrants(calls: seq<Call>, topic: Levels, username: string, clientid: string): set<Grant> {
    set c | c in calls && c.topicType == Patterns && Concerns(c, topic, username, clientid) :: c.grant
  }

  lemma OwnGrantsAre(calls: seq<Call>, topic: Levels, username: string, clientid: string)
    ensures OwnGrants(calls, topic, username, clientid)
         == Granted(RulesOf(calls, OwnerOf(Strings, username)), topic, Asker(false, username, clientid))
  {
    var rules := RulesOf(calls, OwnerOf(Strings, username));
    forall c | c in calls && c.topicType == Strings && c.username == username ensures c.AsRule() in rules {
      RulesOfCalls(calls, OwnerOf(Strings, username), c.AsRule());
    }
    forall r | r in rules ensures Call(r.filter, r.grant, Strings, username) in calls {
      RulesOfCalls(calls, OwnerOf(Strings, username), r);
    }
  }

  lemma SharedGrantsAre(calls: seq<Call>, topic: Levels, username: string, clientid: string)
    ensures SharedGrants(calls, topic, username, clientid)
         == Granted(RulesOf(calls, AllUsers), topic, Asker(true, username, clientid))
  {
    var rules := RulesOf(calls, AllUsers);
    forall c | c in calls && c.topicType == Patterns ensures c.AsRule() in rules {
      RulesOfCalls(calls, AllUsers, c.AsRule());
    }
    forall r | r in rules ensures exists c :: c in calls && c.topicType == Patterns && c.AsRule() == r {
      RulesOfCalls(calls, AllUsers, r);
    }
  }

  lemma PermittedByGrants(calls: seq<Call>, topic: Levels, access: Grant, username: string, clientid: string)
    ensures Permitted(calls, topic, access, username, clientid)
      <==> Allowed(OwnGrants(calls, topic, username, clientid) + SharedGrants(calls, topic, username, clientid), access)
  {
  }

  method JudgeAll(collected: seq<Grant>, access: Grant, ghost own: set<Grant>, ghost all: set<Grant>) returns (result: AuthResult)
    requires (access == Read || access == Write) && Members(collected) == own + if Deny in own then {} else all
    ensures result == Success <==> Allowed(own + all, access)
  {
    EarlyDeny(own, all, access);
    result := Judge(collected, access);
  }

  lemma MembersHave(grants: seq<Grant>, g: Grant)
    ensures g in Members(grants) <==> g in grants
  {
  }

  /** Skipping the patterns after a deny makes no difference. */
  lemma EarlyDeny(own: set<Grant>, all: set<Grant>, access: Grant)
    ensures Allowed(own + if Deny in own then {} else all, access) <==> Allowed(own + all, access)
  {
  }

  /** The loop over what was collected. */
  method Judge(collected: seq<Grant>, access: Grant) returns (result: AuthResult)
    requires access == Read || access == Write
    ensures result == Success <==> Allowed(Members(collected), access)
  {
    if collected == [] {
      return AclDenied;
    }
    var allowed := false;
    for i := 0 to |collected|
      invariant Deny !in collected[..i]
      invariant allowed <==> access in collected[..i] || ReadWrite in collected[..i]
    {
      var grant := collected[i];
      if grant == Deny {
        return AclDenied;
      }
      if access == Read && (grant == Read || grant == ReadWrite) {
        allowed := true;
      }
      if access == Write && (grant == Write || grant == ReadWrite) {
        allowed := true;
      }
      assert collected[..i + 1] == collected[..i] + [grant];
    }
    assert collected[..|collected|] == collected;
    result := if allowed then Success else AclDenied;
  }

  /** The answer is the one that scans over two lists of rules give: those of the client's name, and the patterns. */
  lemma PermissionIsScan(calls: seq<Call>, topic: Levels, username: string, clientid: string, access: Grant)
    ensures var mine := Scan(RulesOf(calls, OwnerOf(Strings, username)), topic, Asker(false, username, clientid), access);
      var theirs := Scan(RulesOf(calls, AllUsers), topic, Asker(true, username, clientid), access);
      Permitted(calls, topic, access, username, clientid) <==> !mine.0 && !theirs.0 && (mine.1 || theirs.1)
  {
    ScanSees(RulesOf(calls, OwnerOf(Strings, username)), topic, Asker(false, username, clientid), access);
    ScanSees(RulesOf(calls, AllUsers), topic, Asker(true, username, clientid), access);
    OwnGrantsAre(calls, topic, username, clientid);
    SharedGrantsAre(calls, topic, username, clientid);
    PermittedByGrants(calls, topic, access, username, clientid);
  }

  lemma {:induction false} RulesOfCalls(calls: seq<Call>, owner: Owner, r: Rule)
    ensures r in RulesOf(calls, owner) <==> exists c :: c in calls && c.Tree() == owner && c.AsRule() == r
  {
    if calls != [] {
      var before, last := calls[..|calls| - 1], calls[|calls| - 1];
      RulesOfCalls(before, owner, r);
      assert calls == before + [last];
    }
  }

  /** Adding rules in another order, or one of them twice, changes no answer. */
  lemma PermissionIgnoresOrder(calls: seq<Call>, calls': seq<Call>, owner: Owner, topic: Levels, asker: Asker)
    requires forall c :: c in calls <==> c in calls'
    ensures Granted(RulesOf(calls, owner), topic, asker) == Granted(RulesOf(calls', owner), topic, asker)
  {
    forall r: Rule ensures r in RulesOf(calls, owner) <==> r in RulesOf(calls', owner) {
      RulesOfCalls(calls, owner, r);
      RulesOfCalls(calls', owner, r);
    }
    OrderDoesNotMatter(RulesOf(calls, owner), RulesOf(calls', owner), topic, asker);
  }

  lemma NodeAtRoot(nodes: Nodes, rules: seq<Rule>, patterns: bool, root: AclNode)
    requires TrieOk(nodes, rules, patterns) && RootOf(nodes, root)
    ensures root.path == []
  {
  }

  lemma AddRoot(trees: Forest, calls: seq<Call>, a: AclNode, p: AclNode, perUser: map<string, AclNode>, name: string, root: AclNode)
    requires RootsOk(trees, a, p, perUser) && ForestOk(trees, calls, User(name)) && name !in perUser
    requires root !in AllNodes(trees) && root.path == [] && root.Blank()
    ensures var trees' := trees[User(name) := map[[] := root]];
      && RootsOk(trees', a, p, perUser[name := root]) && ForestOk(trees', calls, Anonymous)
      && AllNodes(trees') <= AllNodes(trees) + {root}
  {
    NoTreeNoRules(trees, calls, User(name));
    OpenForest(trees, calls, User(name));
    ForestRooted(trees, calls, User(name), root);
    AnyOwner(trees[User(name) := map[[] := root]], calls, User(name), Anonymous);
  }
}
