/** Ordered keyword rules evaluated first-match-wins: the shape shared by the
    two loan-type classifiers (one over text fragments, one over page URLs).
    Each `if`/`elif` arm of such a classifier is one `Rule`: the label it
    returns and the keywords its `or` tests, kept in the program's order. */
module KeywordRules {
  import opened Text

  /** One `elif` arm: the label returned when any keyword occurs. */
  datatype Rule = Rule(keywords: seq<string>, loanType: string)

  /** `k1 in s or k2 in s or ...`: some keyword occurs in `s`. */
  predicate AnyIn(keywords: seq<string>, s: string) {
    exists k :: 0 <= k < |keywords| && Contains(s, keywords[k])
  }

  /** Rule `i` of the table fires on `s`. */
  predicate Fires(rules: seq<Rule>, s: string, i: int)
    requires 0 <= i < |rules|
  {
    AnyIn(rules[i].keywords, s)
  }

  /** No keyword occurs in `s` when each keyword has a character
      (`witnesses[k]` for keyword `k`) that `s` lacks. */
  lemma NoneInByAbsentChars(keywords: seq<string>, s: string, witnesses: seq<char>)
    requires |witnesses| == |keywords|
    requires forall k :: 0 <= k < |witnesses| ==> witnesses[k] in keywords[k] && witnesses[k] !in s
    ensures !AnyIn(keywords, s)
  {
    forall k | 0 <= k < |witnesses| ensures !Contains(s, keywords[k]) {
      AbsentCharRulesOut(s, keywords[k], witnesses[k]);
    }
  }

  /** The label of the first rule that fires, or `default` when none does. */
  function FirstMatch(rules: seq<Rule>, s: string, default: string): (r: string)
    ensures r == default || exists i :: 0 <= i < |rules| && r == rules[i].loanType
    decreases |rules|
  {
    if rules == [] then default
    else if AnyIn(rules[0].keywords, s) then rules[0].loanType
    else
      var r := FirstMatch(rules[1..], s, default);
      assert r != default ==> exists i :: 0 <= i < |rules| && r == rules[i].loanType by {
        if r != default {
          var i :| 0 <= i < |rules| - 1 && r == rules[1..][i].loanType;
          assert r == rules[i + 1].loanType;
        }
      }
      r
  }

  /** Every label the table can give, the default included, is in `labels`. */
  predicate LabelledBy(rules: seq<Rule>, default: string, labels: set<string>) {
    default in labels && forall i :: 0 <= i < |rules| ==> rules[i].loanType in labels
  }

  lemma FirstMatchLabelled(rules: seq<Rule>, s: string, default: string, labels: set<string>)
    requires LabelledBy(rules, default, labels)
    ensures FirstMatch(rules, s, default) in labels
  {
  }

  /** A rule that fires with no earlier rule firing decides the label. */
  lemma {:induction false} FirstMatchPicks(rules: seq<Rule>, s: string, default: string, i: int)
    requires 0 <= i < |rules| && Fires(rules, s, i)
    requires forall j :: 0 <= j < i ==> !Fires(rules, s, j)
    ensures FirstMatch(rules, s, default) == rules[i].loanType
    decreases i
  {
    if i > 0 {
      assert !Fires(rules, s, 0);
      forall j | 0 <= j < i - 1 ensures !Fires(rules[1..], s, j) {
        assert !Fires(rules, s, j + 1);
      }
      FirstMatchPicks(rules[1..], s, default, i - 1);
    }
  }

  /** When no rule fires the default is returned. */
  lemma {:induction false} FirstMatchNone(rules: seq<Rule>, s: string, default: string)
    requires forall j :: 0 <= j < |rules| ==> !Fires(rules, s, j)
    ensures FirstMatch(rules, s, default) == default
    decreases |rules|
  {
    if rules != [] {
      assert !Fires(rules, s, 0);
      forall j | 0 <= j < |rules| - 1 ensures !Fires(rules[1..], s, j) {
        assert !Fires(rules, s, j + 1);
      }
      FirstMatchNone(rules[1..], s, default);
    }
  }

  /** The labels are pairwise different and differ from the default. */
  predicate DistinctLabels(rules: seq<Rule>, default: string) {
    && (forall i, j :: 0 <= i < j < |rules| ==> rules[i].loanType != rules[j].loanType)
    && (forall i :: 0 <= i < |rules| ==> rules[i].loanType != default)
  }

  /** With distinct labels, the result is rule `i`'s label exactly when rule
      `i` is the first to fire. */
  lemma FirstMatchExact(rules: seq<Rule>, s: string, default: string, i: int)
    requires DistinctLabels(rules, default) && 0 <= i < |rules|
    ensures FirstMatch(rules, s, default) == rules[i].loanType
            <==> Fires(rules, s, i) && forall j :: 0 <= j < i ==> !Fires(rules, s, j)
  {
    if Fires(rules, s, i) && forall j :: 0 <= j < i ==> !Fires(rules, s, j) {
      FirstMatchPicks(rules, s, default, i);
    } else if FirstMatch(rules, s, default) == rules[i].loanType {
      if forall j :: 0 <= j < |rules| ==> !Fires(rules, s, j) {
        FirstMatchNone(rules, s, default);
      } else {
        var m := FirstFiring(rules, s);
        FirstMatchPicks(rules, s, default, m);
      }
    }
  }

  /** With distinct labels, the default comes out exactly when no rule fires. */
  lemma FirstMatchDefaultIff(rules: seq<Rule>, s: string, default: string)
    requires DistinctLabels(rules, default)
    ensures FirstMatch(rules, s, default) == default
            <==> forall j :: 0 <= j < |rules| ==> !Fires(rules, s, j)
  {
    if forall j :: 0 <= j < |rules| ==> !Fires(rules, s, j) {
      FirstMatchNone(rules, s, default);
    } else {
      var m := FirstFiring(rules, s);
      FirstMatchPicks(rules, s, default, m);
    }
  }

  /** The index of the first rule that fires, when some rule does. */
  ghost function FirstFiring(rules: seq<Rule>, s: string): (m: int)
    requires exists j :: 0 <= j < |rules| && Fires(rules, s, j)
    ensures 0 <= m < |rules| && Fires(rules, s, m)
    ensures forall j :: 0 <= j < m ==> !Fires(rules, s, j)
    decreases |rules|
  {
    if Fires(rules, s, 0) then 0
    else
      var j :| 0 <= j < |rules| && Fires(rules, s, j);
      assert Fires(rules[1..], s, j - 1);
      var m := FirstFiring(rules[1..], s);
      assert forall j :: 0 < j <= m ==> !Fires(rules, s, j) by {
        forall j | 0 < j <= m ensures !Fires(rules, s, j) {
          assert !Fires(rules[1..], s, j - 1);
        }
      }
      m + 1
  }
}
