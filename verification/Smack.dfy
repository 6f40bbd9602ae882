/** The access decisions of src/security/smack.c. */
module Smack {
  import opened Basics

  /** The two bits of a BuxtonKeyAccessType. */
  datatype Access = Access(read: bool, write: bool)
  datatype Request = Read | Write

  /** One line of the load file. */
  datatype Rule = Rule(subject: string, target: string, access: string)

  /** `enabled` is false when the kernel has no Smack; `table` maps "subject target"
      to what is permitted. */
  datatype Rules = Rules(enabled: bool, table: map<string, Access>)

  predicate Word(s: string) {
    ' ' !in s
  }

  function Permits(access: string): Access {
    Access('r' in access, 'w' in access)
  }

  /** What the load file says about a pair: its first line decides. */
  function FirstRule(lines: seq<Rule>, subject: string, target: string): Option<Access> {
    if lines == [] then None
    else if lines[0].subject == subject && lines[0].target == target then Some(Permits(lines[0].access))
    else FirstRule(lines[1..], subject, target)
  }

  lemma {:induction false} FirstRuleSnoc(lines: seq<Rule>, r: Rule, subject: string, target: string)
    ensures FirstRule(lines + [r], subject, target) ==
      if FirstRule(lines, subject, target) != None then FirstRule(lines, subject, target)
      else if r.subject == subject && r.target == target then Some(Permits(r.access)) else None
  {
    if lines == [] {
      assert [] + [r] == [r];
    } else {
      assert (lines + [r])[1..] == lines[1..] + [r];
      FirstRuleSnoc(lines[1..], r, subject, target);
    }
  }

  /** Words joined by a blank can be told apart. */
  lemma PairInjective(s: string, o: string, t: string, p: string)
    requires Word(s) && Word(t) && s + " " + o == t + " " + p
    ensures s == t && o == p
  {
    var x := s + " " + o;
    assert x[|s|] == ' ' && x[|t|] == ' ';
    assert forall i :: 0 <= i < |s| ==> x[i] == s[i] && s[i] != ' ';
    assert forall i :: 0 <= i < |t| ==> x[i] == t[i] && t[i] != ' ';
    assert |s| == |t|;
    assert s == x[..|s|] && t == x[..|t|];
    assert o == x[|s| + 1..] && p == x[|t| + 1..];
  }

  /** The words of the load file, three to a line. */
  function Lines(words: seq<string>): (r: seq<Rule>)
    ensures |r| == |words| / 3
    ensures forall i :: 0 <= i < |r| ==> r[i] == Rule(words[3 * i], words[3 * i + 1], words[3 * i + 2])
  {
    seq(|words| / 3, i requires 0 <= i < |words| / 3 => Rule(words[3 * i], words[3 * i + 1], words[3 * i + 2]))
  }

  /** The table holds what the first line for each pair says, and nothing else. */
  ghost predicate Loaded(lines: seq<Rule>, table: map<string, Access>) {
    forall s, o :: Word(s) ==>
      FirstRule(lines, s, o) == if s + " " + o in table then Some(table[s + " " + o]) else None
  }

  /** The loop of buxton_cache_smack_rules over the words scanned. hashmap_put keeps
      the entry already there; an incomplete last line is a corrupt file. */
  method CacheRules(words: seq<string>) returns (ok: bool, table: map<string, Access>)
    requires forall i :: 0 <= i < |words| ==> Word(words[i])
    ensures ok <==> |words| % 3 == 0
    ensures Loaded(Lines(words), table)
  {
    ghost var lines := Lines(words);
    table := map[];
    var i := 0;
    assert lines[..0] == [];
    while i + 3 <= |words|
      invariant 0 <= i <= |words| && i % 3 == 0
      invariant Loaded(lines[..i / 3], table)
    {
      var subject, target, access := words[i], words[i + 1], words[i + 2];
      var pair := subject + " " + target;
      ghost var k := i / 3;
      assert lines[k] == Rule(subject, target, access);
      if pair !in table {
        table := table[pair := Permits(access)];
      }
      forall s, o | Word(s)
        ensures FirstRule(lines[..k + 1], s, o) == if s + " " + o in table then Some(table[s + " " + o]) else None
      {
        assert lines[..k + 1] == lines[..k] + [lines[k]];
        FirstRuleSnoc(lines[..k], lines[k], s, o);
        if s + " " + o == pair {
          PairInjective(s, o, subject, target);
        }
      }
      i := i + 3;
    }
    assert lines[..i / 3] == lines;
    ok := i == |words|;
  }

  /** buxton_check_smack_access. */
  predicate CheckAccess(rules: Rules, subject: string, target: string, request: Request) {
    if !rules.enabled then true
    else if subject == "*" then false
    else if target == "@" || subject == "@" then true
    else if target == "*" then true
    else if subject == target then true
    else if request == Read && target == "_" then true
    else if request == Read && subject == "^" then true
    else
      var key := subject + " " + target;
      if key !in rules.table then false
      else if request == Read then rules.table[key].read
      else rules.table[key].read && rules.table[key].write
  }

  /** Whoever may write may read. */
  lemma WriteImpliesRead(rules: Rules, subject: string, target: string)
    requires CheckAccess(rules, subject, target, Write)
    ensures CheckAccess(rules, subject, target, Read)
  {
  }

  /** The `i`-th line is the file's first one for the pair. */
  ghost predicate Decides(lines: seq<Rule>, i: int, subject: string, target: string) {
    && 0 <= i < |lines| && lines[i].subject == subject && lines[i].target == target
    && forall j :: 0 <= j < i ==> lines[j].subject != subject || lines[j].target != target
  }

  /** What the table holds are the letters r and w of the line that decides. */
  lemma {:induction false} FirstRuleIs(lines: seq<Rule>, subject: string, target: string) returns (i: int)
    ensures i >= 0 ==> Decides(lines, i, subject, target)
    ensures i < 0 ==> forall j :: 0 <= j < |lines| ==> lines[j].subject != subject || lines[j].target != target
    ensures FirstRule(lines, subject, target) ==
      if i < 0 then None else Some(Access('r' in lines[i].access, 'w' in lines[i].access))
  {
    if lines == [] {
      i := -1;
    } else if lines[0].subject == subject && lines[0].target == target {
      i := 0;
    } else {
      var k := FirstRuleIs(lines[1..], subject, target);
      i := if k < 0 then -1 else k + 1;
      assert forall j :: 1 <= j < |lines| ==> lines[j] == lines[1..][j - 1];
    }
  }

  /** With a table loaded from the file, who may do what: a client labelled star
      nothing; the web label, and whoever is of the same label, everything, as everyone
      to a star or web object; reading the floor, or by the hat, is free; otherwise the
      first line for the pair decides: reading needs its r, writing its r and its w. */
  lemma AccessExact(lines: seq<Rule>, rules: Rules, subject: string, target: string, request: Request)
    requires Word(subject) && Loaded(lines, rules.table)
    ensures CheckAccess(rules, subject, target, request) <==>
      || !rules.enabled
      || (&& subject != "*"
          && (|| subject == "@" || target in {"@", "*", subject}
              || (request == Read && (target == "_" || subject == "^"))
              || exists i :: Decides(lines, i, subject, target)
                   && 'r' in lines[i].access && (request == Write ==> 'w' in lines[i].access)))
  {
    var i := FirstRuleIs(lines, subject, target);
    assert forall j, k :: Decides(lines, j, subject, target) && Decides(lines, k, subject, target) ==> j == k;
  }

  /** A rule that permits reading only does not let its subject write. */
  lemma ReadOnlyRule(rules: Rules)
    requires rules.enabled && Loaded(Lines(["app", "obj", "r"]), rules.table)
    ensures CheckAccess(rules, "app", "obj", Read) && !CheckAccess(rules, "app", "obj", Write)
  {
    var words := ["app", "obj", "r"];
    var lines := Lines(words);
    assert lines[0] == Rule("app", "obj", "r") && |lines| == 1;
    assert Decides(lines, 0, "app", "obj");
    AccessExact(lines, rules, "app", "obj", Read);
    AccessExact(lines, rules, "app", "obj", Write);
  }
}
