/** sync/partition_table.py: directional rules; a blocked pair says nothing about its reverse. */
module PartitionTables {

  type Rule = (string, string)

  datatype Change = Block(from: string, to: string) | Unblock(from: string, to: string) | UnblockAll

  function Changed(rules: set<Rule>, c: Change): set<Rule> {
    match c
    case Block(from, to) => rules + {(from, to)}
    case Unblock(from, to) => rules - {(from, to)}
    case UnblockAll => {}
  }

  class PartitionTable {
    var rules: set<Rule>

    constructor ()
      ensures forall from, to :: !Blocks(from, to)
      ensures rules == {}
    {
      rules := {};
    }

    method Add(from: string, to: string)
      modifies this
      ensures rules == Changed(old(rules), Block(from, to))
      ensures forall f, t :: Blocks(f, t) <==> old(Blocks(f, t)) || (f, t) == (from, to)
    {
      rules := rules + {(from, to)};
    }

    // Removing an absent rule is no error.
    method Remove(from: string, to: string)
      modifies this
      ensures rules == Changed(old(rules), Unblock(from, to))
      ensures forall f, t :: Blocks(f, t) <==> old(Blocks(f, t)) && (f, t) != (from, to)
    {
      rules := rules - {(from, to)};
    }

    method Clear()
      modifies this
      ensures rules == Changed(old(rules), UnblockAll)
      ensures forall f, t :: !Blocks(f, t)
    {
      rules := {};
    }

    predicate Blocks(from: string, to: string)
      reads this
    {
      (from, to) in rules
    }
  }

  // ----- whole histories

  function AfterAll(rules: set<Rule>, cs: seq<Change>): set<Rule> {
    if cs == [] then rules else Changed(AfterAll(rules, cs[..|cs| - 1]), cs[|cs| - 1])
  }

  predicate Lifts(c: Change, from: string, to: string) {
    c == UnblockAll || c == Unblock(from, to)
  }

  // Change i blocks the pair, and nothing after it lifts the rule.
  ghost predicate LastWord(cs: seq<Change>, i: int, from: string, to: string) {
    0 <= i < |cs| && cs[i] == Block(from, to) && forall j | i < j < |cs| :: !Lifts(cs[j], from, to)
  }

  ghost predicate HasLastWord(cs: seq<Change>, from: string, to: string) {
    exists i :: LastWord(cs, i, from, to)
  }

  /** The last word counts: after any history of changes, from an empty table, a pair is blocked exactly when some
      change blocked this very direction and none since has removed it or cleared the table. Changes to other
      pairs, the reverse direction among them, make no difference. */
  lemma {:induction false} BlockedIff(cs: seq<Change>, from: string, to: string)
    ensures (from, to) in AfterAll({}, cs) <==> HasLastWord(cs, from, to)
  {
    if cs == [] {
    } else {
      var n := |cs| - 1;
      BlockedIff(cs[..n], from, to);
      if cs[n] == Block(from, to) {
        assert LastWord(cs, n, from, to);
      } else if !Lifts(cs[n], from, to) {
        EarlierWord(cs, from, to);
      }
    }
  }

  lemma {:induction false} EarlierWord(cs: seq<Change>, from: string, to: string)
    requires cs != [] && !Lifts(cs[|cs| - 1], from, to) && cs[|cs| - 1] != Block(from, to)
    ensures HasLastWord(cs, from, to) <==> HasLastWord(cs[..|cs| - 1], from, to)
  {
    var before := cs[..|cs| - 1];
    if i :| LastWord(before, i, from, to) {
      assert forall j | i < j < |before| :: before[j] == cs[j];
      assert LastWord(cs, i, from, to);
    }
    if i :| LastWord(cs, i, from, to) {
      assert forall j | i < j < |before| :: before[j] == cs[j];
      assert LastWord(before, i, from, to);
    }
  }
}
