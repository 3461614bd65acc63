/** Access rules as a plain list: which rules match a topic, and what they allow together. */
module AclRules {
  /** A topic or a filter, split at its slashes. */
  type Levels = seq<string>

  datatype Grant = Deny | Read | Write | ReadWrite

  datatype Rule = Rule(filter: Levels, grant: Grant)

  /** Who asks; only patterns look at it. */
  datatype Asker = Asker(patterns: bool, username: string, clientid: string)

  /** Whether one level of a filter stands for a level of a topic. */
  predicate LevelMatches(level: string, subtopic: string, asker: Asker) {
    || level == "+" || level == subtopic
    || (asker.patterns && level == "%u" && subtopic == asker.username)
    || (asker.patterns && level == "%c" && subtopic == asker.clientid)
  }

  /** `#` stands for any number of levels, also none; what comes after it in a filter is ignored. */
  predicate Matches(filter: Levels, topic: Levels, asker: Asker) {
    if filter == [] then topic == []
    else if filter[0] == "#" then true
    else topic != [] && LevelMatches(filter[0], topic[0], asker) && Matches(filter[1..], topic[1..], asker)
  }

  /** Where the first `#` of a filter is, or its end. */
  function PoundPlace(filter: Levels): (k: nat)
    ensures k <= |filter|
  {
    if filter == [] || filter[0] == "#" then 0 else 1 + PoundPlace(filter[1..])
  }

  /** Place by place: `+` and the names stand for one level, `#` for what is left, and without it nothing may be left. */
  lemma {:induction false} MatchesByLevels(filter: Levels, topic: Levels, asker: Asker)
    ensures var k := PoundPlace(filter);
      Matches(filter, topic, asker) <==>
        && (if k < |filter| then |topic| >= k else |topic| == k)
        && (forall i :: 0 <= i < k && i < |topic| ==>
              || filter[i] == "+" || filter[i] == topic[i]
              || (asker.patterns && filter[i] == "%u" && topic[i] == asker.username)
              || (asker.patterns && filter[i] == "%c" && topic[i] == asker.clientid))
    ensures var k := PoundPlace(filter); (k < |filter| ==> filter[k] == "#") && forall i :: 0 <= i < k ==> filter[i] != "#"
  {
    if filter != [] && filter[0] != "#" && topic != [] {
      MatchesByLevels(filter[1..], topic[1..], asker);
      var k := PoundPlace(filter[1..]);
      forall i | 0 <= i < |filter| - 1 ensures filter[1..][i] == filter[i + 1] {
      }
      forall i | 0 <= i < |topic| - 1 ensures topic[1..][i] == topic[i + 1] {
      }
    } else if filter != [] && filter[0] != "#" {
      MatchesByLevels(filter[1..], [], asker);
    }
  }

  /** What all matching rules grant. */
  function Granted(rules: seq<Rule>, topic: Levels, asker: Asker): set<Grant> {
    set r | r in rules && Matches(r.filter, topic, asker) :: r.grant
  }

  /** A deny overrides everything; otherwise something has to give the access. */
  predicate Allowed(grants: set<Grant>, access: Grant) {
    Deny !in grants && (access in grants || ReadWrite in grants)
  }

  // ---------- rules by where they lead ----------

  /** The filter starts with these levels. */
  predicate Through(filter: Levels, path: Levels) {
    |path| <= |filter| && filter[..|path|] == path
  }

  /** What the rules through `path` grant to a topic that has got there and goes on with `rest`. */
  function Found(rules: seq<Rule>, path: Levels, rest: Levels, asker: Asker): set<Grant> {
    set r | r in rules && Through(r.filter, path) && Matches(r.filter[|path|..], rest, asker) :: r.grant
  }

  predicate EndsAt(r: Rule, path: Levels) {
    r.filter == path
  }

  predicate PoundAt(r: Rule, path: Levels) {
    Through(r.filter, path) && |path| < |r.filter| && r.filter[|path|] == "#"
  }

  /** The grants of the rules that end at `path`, or have their `#` there, in the order they were added. */
  function GrantsAt(rules: seq<Rule>, path: Levels, pound: bool): seq<Grant> {
    if rules == [] then []
    else
      var r := rules[|rules| - 1];
      GrantsAt(rules[..|rules| - 1], path, pound)
        + if (if pound then PoundAt(r, path) else EndsAt(r, path)) then [r.grant] else []
  }

  lemma GrantsAtSnoc(rules: seq<Rule>, r: Rule, path: Levels, pound: bool)
    ensures GrantsAt(rules + [r], path, pound)
      == GrantsAt(rules, path, pound) + if (if pound then PoundAt(r, path) else EndsAt(r, path)) then [r.grant] else []
  {
  }

  lemma {:induction false} GrantsAtMembers(rules: seq<Rule>, path: Levels, pound: bool, g: Grant)
    ensures g in GrantsAt(rules, path, pound)
      <==> exists r :: r in rules && r.grant == g && if pound then PoundAt(r, path) else EndsAt(r, path)
  {
    if rules != [] {
      var before, last := rules[..|rules| - 1], rules[|rules| - 1];
      GrantsAtMembers(before, path, pound, g);
      assert rules == before + [last];
      assert forall r :: r in rules <==> r in before || r == last;
    }
  }

  // ---------- one level down ----------

  lemma MatchesNext(filter: Levels, path: Levels, topic: string, rest: Levels, asker: Asker)
    requires Through(filter, path)
    ensures Matches(filter[|path|..], [topic] + rest, asker)
      <==> |path| < |filter| && (filter[|path|] == "#"
                                 || (LevelMatches(filter[|path|], topic, asker) && Matches(filter[|path| + 1..], rest, asker)))
  {
  }

  /** Some rule goes on from `path` with this level. */
  ghost predicate GoesOn(rules: seq<Rule>, path: Levels, level: string) {
    exists r :: r in rules && Through(r.filter, path + [level])
  }

  function Pounds(rules: seq<Rule>, path: Levels): set<Grant> {
    set g | g in GrantsAt(rules, path, true)
  }

  function Ends(rules: seq<Rule>, path: Levels): set<Grant> {
    set g | g in GrantsAt(rules, path, false)
  }

  lemma FoundHere(rules: seq<Rule>, path: Levels, asker: Asker)
    ensures Found(rules, path, [], asker) == Ends(rules, path) + Pounds(rules, path)
  {
    forall g: Grant ensures g in Found(rules, path, [], asker) <==> g in Ends(rules, path) + Pounds(rules, path) {
      GrantsAtMembers(rules, path, true, g);
      GrantsAtMembers(rules, path, false, g);
      forall r | r in rules ensures Through(r.filter, path) && Matches(r.filter[|path|..], [], asker) <==> EndsAt(r, path) || PoundAt(r, path) {
      }
    }
  }

  /** What the levels that stand for the next one lead to. */
  predicate Leads(g: Grant, rules: seq<Rule>, path: Levels, topic: string, rest: Levels, asker: Asker) {
    || (topic != "+" && topic != "#" && g in Found(rules, path + [topic], rest, asker))
    || g in Found(rules, path + ["+"], rest, asker)
    || (asker.patterns && topic == asker.username && g in Found(rules, path + ["%u"], rest, asker))
    || (asker.patterns && topic == asker.clientid && g in Found(rules, path + ["%c"], rest, asker))
  }

  lemma FoundThrough(rules: seq<Rule>, path: Levels, level: string, rest: Levels, asker: Asker, g: Grant)
    ensures g in Found(rules, path + [level], rest, asker)
      <==> exists r :: r in rules && r.grant == g && Through(r.filter, path) && |path| < |r.filter| && r.filter[|path|] == level
                       && Matches(r.filter[|path| + 1..], rest, asker)
  {
  }

  /** What is found at a node: its `#` grants, and what the levels that stand for the next one lead to. */
  lemma FoundNext(rules: seq<Rule>, path: Levels, topic: string, rest: Levels, asker: Asker, g: Grant)
    ensures g in Found(rules, path, [topic] + rest, asker)
      <==> g in Pounds(rules, path) || Leads(g, rules, path, topic, rest, asker)
  {
    GrantsAtMembers(rules, path, true, g);
    FoundThrough(rules, path, topic, rest, asker, g);
    FoundThrough(rules, path, "+", rest, asker, g);
    FoundThrough(rules, path, "%u", rest, asker, g);
    FoundThrough(rules, path, "%c", rest, asker, g);
    forall r | r in rules && Through(r.filter, path)
      ensures Matches(r.filter[|path|..], [topic] + rest, asker)
        <==> |path| < |r.filter| && (r.filter[|path|] == "#"
                                     || (LevelMatches(r.filter[|path|], topic, asker) && Matches(r.filter[|path| + 1..], rest, asker)))
    {
      MatchesNext(r.filter, path, topic, rest, asker);
    }
    if g in Found(rules, path, [topic] + rest, asker) {
      var r :| r in rules && r.grant == g && Through(r.filter, path) && Matches(r.filter[|path|..], [topic] + rest, asker);
      assert r.filter[|path|] == "#" ==> PoundAt(r, path);
    }
    if g in Pounds(rules, path) {
      var r :| r in rules && r.grant == g && PoundAt(r, path);
      assert Through(r.filter, path) && Matches(r.filter[|path|..], [topic] + rest, asker);
    }
    if Leads(g, rules, path, topic, rest, asker) {
      var r :| r in rules && r.grant == g && Through(r.filter, path) && |path| < |r.filter|
               && LevelMatches(r.filter[|path|], topic, asker) && Matches(r.filter[|path| + 1..], rest, asker);
      assert Through(r.filter, path) && Matches(r.filter[|path|..], [topic] + rest, asker);
    }
  }

  /** At the root, everything that matches is found. */
  lemma FoundAtRoot(rules: seq<Rule>, topic: Levels, asker: Asker)
    ensures Found(rules, [], topic, asker) == Granted(rules, topic, asker)
  {
  }

  // ---------- the linear scan ----------

  /** A scan over the rules that keeps whether a deny and whether a grant for the access was seen. */
  function Scan(rules: seq<Rule>, topic: Levels, asker: Asker, access: Grant): (bool, bool) {
    if rules == [] then (false, false)
    else
      var before, r := Scan(rules[..|rules| - 1], topic, asker, access), rules[|rules| - 1];
      if Matches(r.filter, topic, asker)
      then (before.0 || r.grant == Deny, before.1 || r.grant == access || r.grant == ReadWrite)
      else before
  }

  lemma {:induction false} ScanSees(rules: seq<Rule>, topic: Levels, asker: Asker, access: Grant)
    ensures var seen, grants := Scan(rules, topic, asker, access), Granted(rules, topic, asker);
      (seen.0 <==> Deny in grants) && (seen.1 <==> access in grants || ReadWrite in grants)
  {
    if rules != [] {
      var before, last := rules[..|rules| - 1], rules[|rules| - 1];
      ScanSees(before, topic, asker, access);
      assert rules == before + [last];
      assert Granted(rules, topic, asker)
          == Granted(before, topic, asker) + if Matches(last.filter, topic, asker) then {last.grant} else {} by {
        assert forall r :: r in rules <==> r in before || r == last;
      }
    }
  }

  /** The order of the rules does not matter, nor does repeating one. */
  lemma OrderDoesNotMatter(rules: seq<Rule>, rules': seq<Rule>, topic: Levels, asker: Asker)
    requires forall r :: r in rules <==> r in rules'
    ensures Granted(rules, topic, asker) == Granted(rules', topic, asker)
  {
  }
}
