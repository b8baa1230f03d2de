/**
 Choosing the rule for a connection: the first rule that matches, else the last FINAL rule, else
 the built-in one. A rule that throws is passed over.
 */
module RuleScan {
  import opened Bytes

  /** A connection, as far as rules can tell: the host it asks for, and everything else. */
  datatype Connection = Connection(host: Option<nat>, rest: nat)

  datatype Rule = Rule(id: nat, isFinal: bool)

  datatype Verdict = Yes | No | Throws

  type Judge = (Rule, Connection) -> Verdict

  const BUILT_IN: Rule := Rule(0, true)

  /** The loop over the rules. */
  method ChooseRule(rules: seq<Rule>, judge: Judge, connection: Connection) returns (r: Rule)
    ensures r == Choice(rules, judge, connection)
  {
    var saved: Option<Rule> := None;
    var final := BUILT_IN;
    var i := 0;
    while i < |rules|
      invariant 0 <= i <= |rules| && saved.None?
      invariant forall j :: 0 <= j < i ==> !judge(rules[j], connection).Yes?
      invariant final == LastFinal(rules[..i])
    {
      var rule := rules[i];
      assert rules[..i + 1] == rules[..i] + [rule];
      if rule.isFinal {
        final := rule;
      }
      match judge(rule, connection) {
        case Yes =>
          saved := Some(rule);
          FirstIsAt(rules, judge, connection, i);
          break;
        case No =>
        case Throws =>
      }
      i := i + 1;
    }
    if saved.None? {
      NoneMatches(rules, judge, connection);
      assert rules[..i] == rules;
    }
    r := if saved.Some? then saved.value else final;
  }

  function FirstMatch(rules: seq<Rule>, judge: Judge, connection: Connection): (r: Option<Rule>) {
    if rules == [] then None
    else if judge(rules[0], connection).Yes? then Some(rules[0])
    else FirstMatch(rules[1..], judge, connection)
  }

  function LastFinal(rules: seq<Rule>): (r: Rule) {
    if rules == [] then BUILT_IN
    else if rules[|rules| - 1].isFinal then rules[|rules| - 1]
    else LastFinal(rules[..|rules| - 1])
  }

  function Choice(rules: seq<Rule>, judge: Judge, connection: Connection): (r: Rule) {
    match FirstMatch(rules, judge, connection)
    case Some(rule) => rule
    case None => LastFinal(rules)
  }

  lemma {:induction false} FirstIsAt(rules: seq<Rule>, judge: Judge, connection: Connection, i: nat)
    requires i < |rules| && judge(rules[i], connection).Yes?
    requires forall j :: 0 <= j < i ==> !judge(rules[j], connection).Yes?
    ensures FirstMatch(rules, judge, connection) == Some(rules[i])
  {
    if i > 0 {
      assert rules[1..][i - 1] == rules[i];
      FirstIsAt(rules[1..], judge, connection, i - 1);
    }
  }

  lemma {:induction false} NoneMatches(rules: seq<Rule>, judge: Judge, connection: Connection)
    requires forall j :: 0 <= j < |rules| ==> !judge(rules[j], connection).Yes?
    ensures FirstMatch(rules, judge, connection) == None
  {
    if rules != [] {
      NoneMatches(rules[1..], judge, connection);
    }
  }

  lemma {:induction false} LastFinalIsAt(rules: seq<Rule>, i: nat)
    requires i < |rules| && rules[i].isFinal && forall j :: i < j < |rules| ==> !rules[j].isFinal
    ensures LastFinal(rules) == rules[i]
  {
    if i < |rules| - 1 {
      LastFinalIsAt(rules[..|rules| - 1], i);
    }
  }

  lemma {:induction false} NoFinal(rules: seq<Rule>)
    requires forall j :: 0 <= j < |rules| ==> !rules[j].isFinal
    ensures LastFinal(rules) == BUILT_IN
  {
    if rules != [] {
      NoFinal(rules[..|rules| - 1]);
    }
  }

  /** The choice in terms of positions: a match beats everything after it and every FINAL rule; the
      last FINAL rule counts only when nothing matches; the built-in rule only when there is none. */
  lemma {:induction false} ChoiceByPosition(rules: seq<Rule>, judge: Judge, connection: Connection, i: nat)
    requires i < |rules|
    ensures judge(rules[i], connection).Yes? && (forall j :: 0 <= j < i ==> !judge(rules[j], connection).Yes?) ==>
              Choice(rules, judge, connection) == rules[i]
    ensures (forall j :: 0 <= j < |rules| ==> !judge(rules[j], connection).Yes?) &&
            rules[i].isFinal && (forall j :: i < j < |rules| ==> !rules[j].isFinal) ==>
              Choice(rules, judge, connection) == rules[i]
    ensures (forall j :: 0 <= j < |rules| ==> !judge(rules[j], connection).Yes? && !rules[j].isFinal) ==>
              Choice(rules, judge, connection) == BUILT_IN
  {
    if judge(rules[i], connection).Yes? && forall j :: 0 <= j < i ==> !judge(rules[j], connection).Yes? {
      FirstIsAt(rules, judge, connection, i);
    }
    if forall j :: 0 <= j < |rules| ==> !judge(rules[j], connection).Yes? {
      NoneMatches(rules, judge, connection);
      if rules[i].isFinal && forall j :: i < j < |rules| ==> !rules[j].isFinal {
        LastFinalIsAt(rules, i);
      }
      if forall j :: 0 <= j < |rules| ==> !rules[j].isFinal {
        NoFinal(rules);
      }
    }
  }
}
