/**
 * The identity resolver of the detail rows (`buildDetailRows`): manual
 * links (`applyAccountLinkChange`, `reverseNameMap`), the fuzzy match of
 * unlinked work names against attendance names (best and runner-up score,
 * acceptance test, greedy one-to-one assignment in descending score order),
 * the row a work name joins, and the per-row figures (`compositeScore`,
 * `calcWorkRatioPercent`, `getDominantStageKey`).
 */
module Matching {
  import opened Wrappers
  import opened Text
  import opened Sorting
  import opened Names
  import opened Similarity

  // ---------------------------------------------------------------------
  // applyAccountLinkChange
  // ---------------------------------------------------------------------

  /** No two accounts are linked to the same name. */
  ghost predicate OneToOne(m: map<string, string>)
  {
    forall k1, k2 :: k1 in m && k2 in m && m[k1] == m[k2] ==> k1 == k2
  }

  /**
   * `applyAccountLinkChange`: an empty target removes the link of `source`;
   * otherwise every other account linked to `target` loses its link and
   * `source` is linked to `target`.
   */
  function ApplyAccountLinkChange(prev: map<string, string>, source: string, target: string): (next: map<string, string>)
    ensures source in next <==> target != []
    ensures target != [] ==> next[source] == target
    ensures target != [] ==> forall k :: k in next && next[k] == target ==> k == source
    ensures forall k :: k != source ==> (k in next <==> k in prev && (target == [] || prev[k] != target))
    ensures forall k :: k in next && k != source ==> next[k] == prev[k]
  {
    if target == [] then prev - {source}
    else (map k | k in prev && prev[k] != target :: prev[k])[source := target]
  }

  /** A link change keeps the links one-to-one. */
  lemma LinkChangeKeepsOneToOne(prev: map<string, string>, source: string, target: string)
    requires OneToOne(prev)
    ensures OneToOne(ApplyAccountLinkChange(prev, source, target))
  {
    var next := ApplyAccountLinkChange(prev, source, target);
    forall k1, k2 | k1 in next && k2 in next && next[k1] == next[k2]
      ensures k1 == k2
    {
      if k1 != source && k2 != source {
        assert prev[k1] == prev[k2];
      }
    }
  }

  /** Making the same change twice is the same as making it once. */
  lemma LinkChangeIdempotent(prev: map<string, string>, source: string, target: string)
    ensures var next := ApplyAccountLinkChange(prev, source, target);
      ApplyAccountLinkChange(next, source, target) == next
  {
    var next := ApplyAccountLinkChange(prev, source, target);
    var again := ApplyAccountLinkChange(next, source, target);
    assert again.Keys == next.Keys;
  }

  // ---------------------------------------------------------------------
  // reverseNameMap
  // ---------------------------------------------------------------------

  /** `m.set(key, value)` for every pair in order, skipping empty keys. */
  function LastWins(pairs: seq<(string, string)>): map<string, string>
  {
    if pairs == [] then map[]
    else
      var m := LastWins(pairs[..|pairs| - 1]);
      var last := pairs[|pairs| - 1];
      if last.0 != [] then m[last.0 := last.1] else m
  }

  /** No later pair has the key of pair `i`. */
  ghost predicate LastOf(pairs: seq<(string, string)>, i: nat)
    requires i < |pairs|
  {
    forall j :: i < j < |pairs| ==> pairs[j].0 != pairs[i].0
  }

  /** The keys are the non-empty keys of the pairs. */
  lemma {:induction false} LastWinsKeys(pairs: seq<(string, string)>)
    ensures forall key :: key in LastWins(pairs) <==>
      key != [] && exists i :: 0 <= i < |pairs| && pairs[i].0 == key
  {
    if pairs != [] {
      var init := pairs[..|pairs| - 1];
      LastWinsKeys(init);
      forall key | key != [] && (exists i :: 0 <= i < |pairs| && pairs[i].0 == key)
        ensures key in LastWins(pairs)
      {
        var i :| 0 <= i < |pairs| && pairs[i].0 == key;
        if i < |pairs| - 1 {
          assert init[i].0 == key;
        }
      }
      forall key | key in LastWins(pairs)
        ensures key != [] && exists i :: 0 <= i < |pairs| && pairs[i].0 == key
      {
        if key != pairs[|pairs| - 1].0 {
          assert key in LastWins(init);
          var i :| 0 <= i < |init| && init[i].0 == key;
          assert pairs[i].0 == key;
        }
      }
    }
  }

  /** A non-empty key holds the value of the last pair that has it. */
  lemma {:induction false} LastWinsLast(pairs: seq<(string, string)>, i: nat)
    requires i < |pairs| && pairs[i].0 != [] && LastOf(pairs, i)
    ensures pairs[i].0 in LastWins(pairs) && LastWins(pairs)[pairs[i].0] == pairs[i].1
  {
    var init := pairs[..|pairs| - 1];
    if i < |pairs| - 1 {
      assert init[i] == pairs[i];
      assert pairs[|pairs| - 1].0 != pairs[i].0;
      forall j | i < j < |init|
        ensures init[j].0 != init[i].0
      {
        assert init[j] == pairs[j];
      }
      LastWinsLast(init, i);
    }
  }

  /** The pairs `(normalizeWorkKey(work), attendance)` of the manual links, in entry order. */
  function WorkKeyPairs(nameMap: seq<(string, string)>): (r: seq<(string, string)>)
    ensures |r| == |nameMap|
    ensures forall i :: 0 <= i < |r| ==> r[i] == (NormalizeWorkKey(nameMap[i].1), nameMap[i].0)
  {
    seq(|nameMap|, i requires 0 <= i < |nameMap| => (NormalizeWorkKey(nameMap[i].1), nameMap[i].0))
  }

  /**
   * `reverseNameMap`: from the work key of each linked work name to its
   * attendance name; a later link with the same work key wins.
   */
  function ReverseNameMap(nameMap: seq<(string, string)>): map<string, string>
  {
    LastWins(WorkKeyPairs(nameMap))
  }

  /** The reverse map has an entry for exactly the non-blank work keys of the links. */
  lemma ReverseNameMapKeys(nameMap: seq<(string, string)>)
    ensures forall key :: key in ReverseNameMap(nameMap) <==>
      key != [] && exists i :: 0 <= i < |nameMap| && NormalizeWorkKey(nameMap[i].1) == key
  {
    var pairs := WorkKeyPairs(nameMap);
    LastWinsKeys(pairs);
    forall key | key in ReverseNameMap(nameMap)
      ensures exists i :: 0 <= i < |nameMap| && NormalizeWorkKey(nameMap[i].1) == key
    {
      var i :| 0 <= i < |pairs| && pairs[i].0 == key;
      assert NormalizeWorkKey(nameMap[i].1) == key;
    }
    forall key | key != [] && exists i :: 0 <= i < |nameMap| && NormalizeWorkKey(nameMap[i].1) == key
      ensures key in ReverseNameMap(nameMap)
    {
      var i :| 0 <= i < |nameMap| && NormalizeWorkKey(nameMap[i].1) == key;
      assert pairs[i].0 == key;
    }
  }

  /** A work key maps to the attendance name of the last link that has it. */
  lemma ReverseNameMapLast(nameMap: seq<(string, string)>, i: nat)
    requires i < |nameMap| && NormalizeWorkKey(nameMap[i].1) != []
    requires forall j :: i < j < |nameMap| ==> NormalizeWorkKey(nameMap[j].1) != NormalizeWorkKey(nameMap[i].1)
    ensures NormalizeWorkKey(nameMap[i].1) in ReverseNameMap(nameMap)
    ensures ReverseNameMap(nameMap)[NormalizeWorkKey(nameMap[i].1)] == nameMap[i].0
  {
    var pairs := WorkKeyPairs(nameMap);
    assert LastOf(pairs, i);
    LastWinsLast(pairs, i);
  }

  // ---------------------------------------------------------------------
  // Best and runner-up candidate
  // ---------------------------------------------------------------------

  /** The largest score. */
  function MaxOf(s: seq<real>): (m: real)
    requires |s| > 0
    ensures forall j :: 0 <= j < |s| ==> s[j] <= m
    ensures m in s
  {
    if |s| == 1 then s[0]
    else
      var rest := MaxOf(s[..|s| - 1]);
      assert forall j :: 0 <= j < |s| - 1 ==> s[..|s| - 1][j] == s[j];
      if s[|s| - 1] > rest then s[|s| - 1] else rest
  }

  /** The first position holding `m`. */
  function FirstAt(s: seq<real>, m: real): (i: nat)
    requires m in s
    ensures i < |s| && s[i] == m
    ensures forall j :: 0 <= j < i ==> s[j] != m
  {
    if s[0] == m then 0
    else
      assert m in s[1..];
      1 + FirstAt(s[1..], m)
  }

  /** The first candidate with the largest score. */
  function BestOf(s: seq<real>): (b: nat)
    requires |s| > 0
    ensures b < |s|
    ensures forall j :: 0 <= j < |s| ==> s[j] <= s[b]
    ensures forall j :: 0 <= j < b ==> s[j] < s[b]
  {
    FirstAt(s, MaxOf(s))
  }

  /** The largest score once position `b` is set aside. */
  function MaxWithout(s: seq<real>, b: nat): real
    requires |s| >= 2 && b < |s|
  {
    MaxOf(s[..b] + s[b + 1..])
  }

  /** The largest score among the candidates other than the best one. */
  function RunnerUpOf(s: seq<real>): real
    requires |s| >= 2
  {
    MaxWithout(s, BestOf(s))
  }

  /** `b` is the first maximum of `s[..n]`. */
  ghost predicate IsBest(s: seq<real>, n: nat, b: nat)
    requires n <= |s|
  {
    b < n && (forall j :: 0 <= j < n ==> s[j] <= s[b]) && (forall j :: 0 <= j < b ==> s[j] < s[b])
  }

  /** `c` is a maximum of `s[..n]` once `b` is set aside. */
  ghost predicate IsRunnerUp(s: seq<real>, n: nat, b: nat, c: nat)
    requires n <= |s|
  {
    c < n && c != b && forall j :: 0 <= j < n && j != b ==> s[j] <= s[c]
  }

  lemma BestIsFirstMax(s: seq<real>, b: nat)
    requires IsBest(s, |s|, b)
    ensures b == BestOf(s)
  {
    var m := MaxOf(s);
    var k :| 0 <= k < |s| && s[k] == m;
    assert s[b] == m;
  }

  lemma RunnerUpIsMax(s: seq<real>, b: nat, c: nat)
    requires |s| >= 2 && b < |s| && IsRunnerUp(s, |s|, b, c)
    ensures s[c] == MaxWithout(s, b)
  {
    var w := s[..b] + s[b + 1..];
    var m := MaxOf(w);
    if c < b {
      assert w[c] == s[c];
    } else {
      assert w[c - 1] == s[c];
    }
    var k :| 0 <= k < |w| && w[k] == m;
    if k < b {
      assert w[k] == s[k];
    } else {
      assert w[k] == s[k + 1];
    }
  }

  /**
   * The scan over the attendance candidates: a strictly higher score
   * replaces the best one (which becomes the runner-up); otherwise a
   * strictly higher score, or the second candidate seen, replaces the
   * runner-up.
   */
  method BestTwo(s: seq<real>) returns (best: Option<nat>, second: Option<nat>)
    ensures best.Some? <==> |s| > 0
    ensures best.Some? ==> best.value == BestOf(s)
    ensures second.Some? <==> |s| >= 2
    ensures second.Some? ==>
      best.Some? && second.value < |s| && second.value != best.value && s[second.value] == RunnerUpOf(s)
  {
    best := None;
    second := None;
    for i := 0 to |s|
      invariant best.Some? <==> i > 0
      invariant best.Some? ==> IsBest(s, i, best.value)
      invariant second.Some? <==> i > 1
      invariant second.Some? ==> best.Some? && IsRunnerUp(s, i, best.value, second.value)
    {
      if best.None? || s[i] > s[best.value] {
        second := best;
        best := Some(i);
      } else if second.None? || s[i] > s[second.value] {
        second := Some(i);
      }
    }
    if best.Some? {
      BestIsFirstMax(s, best.value);
      if second.Some? {
        RunnerUpIsMax(s, best.value, second.value);
        assert RunnerUpOf(s) == MaxWithout(s, best.value);
      }
    }
  }

  // ---------------------------------------------------------------------
  // Acceptance of a fuzzy match
  // ---------------------------------------------------------------------

  /** A best score of 0.9, or of 0.82 with no runner-up within 0.03. */
  predicate Accepted(best: real, second: Option<real>)
  {
    best >= 0.9 || (best >= 0.82 && (second.None? || best - second.value >= 0.03))
  }

  /** A higher best score or a lower runner-up never turns an accepted match down. */
  lemma AcceptedMonotone(b1: real, s1: Option<real>, b2: real, s2: Option<real>)
    requires Accepted(b1, s1) && b1 <= b2
    requires s2.None? || (s1.Some? && s2.value <= s1.value)
    ensures Accepted(b2, s2)
  {
  }

  // ---------------------------------------------------------------------
  // The fuzzy match of one work name
  // ---------------------------------------------------------------------

  /** An attendance candidate: its canonical key and the name it is shown with. */
  datatype Candidate = Candidate(key: string, display: string)

  /** The attendance candidate chosen for a work name, with its score. */
  datatype Match = Match(key: string, name: string, score: real)

  /** An accepted fuzzy match of the work operator `operator`. */
  datatype Fuzzy = Fuzzy(operator: string, best: Match)

  /** The score of the work name against each candidate, in candidate order. */
  function Scores(workName: string, cands: seq<Candidate>): (s: seq<real>)
    ensures |s| == |cands|
  {
    seq(|cands|, j requires 0 <= j < |cands| => NameSimilarityScore(workName, cands[j].display))
  }

  /** Entry `j` of the score list is the work name's score against candidate `j`. */
  lemma ScoreAt(workName: string, cands: seq<Candidate>, j: nat)
    requires j < |cands|
    ensures Scores(workName, cands)[j] == NameSimilarityScore(workName, cands[j].display)
  {
  }

  /** The runner-up score, when there are at least two candidates. */
  function SecondOf(s: seq<real>): Option<real>
  {
    if |s| >= 2 then Some(RunnerUpOf(s)) else None
  }

  /**
   * The verdict on the scores `s` of the candidates: the first best-scoring
   * candidate when the acceptance test passes, nothing otherwise.
   */
  function Pick(s: seq<real>, cands: seq<Candidate>): Option<Match>
    requires |s| == |cands|
  {
    if s == [] then None
    else
      var b := BestOf(s);
      if Accepted(s[b], SecondOf(s)) then Some(Match(cands[b].key, cands[b].display, s[b])) else None
  }

  /** The verdict for one work name. */
  function FuzzyVerdict(workName: string, cands: seq<Candidate>): Option<Match>
  {
    Pick(Scores(workName, cands), cands)
  }

  /** An accepted candidate has a score of at least 0.82 that no other candidate beats. */
  lemma PickSpec(s: seq<real>, cands: seq<Candidate>)
    requires |s| == |cands|
    ensures Pick(s, cands).Some? ==> exists j :: 0 <= j < |cands| && Pick(s, cands).value == Match(cands[j].key, cands[j].display, s[j])
    ensures Pick(s, cands).Some? ==> forall j :: 0 <= j < |s| ==> s[j] <= Pick(s, cands).value.score
    ensures Pick(s, cands).Some? ==> Pick(s, cands).value.score >= 0.82
  {
  }

  /** The accepted candidate, if any, is a best-scoring one with a score of at least 0.82. */
  lemma FuzzyVerdictSpec(workName: string, cands: seq<Candidate>)
    ensures var r := FuzzyVerdict(workName, cands);
      r.Some? ==>
        exists j :: 0 <= j < |cands| && r.value == Match(cands[j].key, cands[j].display, NameSimilarityScore(workName, cands[j].display))
    ensures var r := FuzzyVerdict(workName, cands);
      r.Some? ==> forall j :: 0 <= j < |cands| ==> NameSimilarityScore(workName, cands[j].display) <= r.value.score
    ensures var r := FuzzyVerdict(workName, cands);
      r.Some? ==> r.value.score >= 0.82
  {
    var s := Scores(workName, cands);
    PickSpec(s, cands);
    var r := FuzzyVerdict(workName, cands);
    if r.Some? {
      var j :| 0 <= j < |cands| && r.value == Match(cands[j].key, cands[j].display, s[j]);
      ScoreAt(workName, cands, j);
      forall k | 0 <= k < |cands|
        ensures NameSimilarityScore(workName, cands[k].display) <= r.value.score
      {
        ScoreAt(workName, cands, k);
      }
    }
  }

  /** A runner-up is at least every score but the one set aside, and at most the best. */
  lemma MaxWithoutBounds(s: seq<real>, b: nat, c: nat)
    requires |s| >= 2 && b < |s| && c < |s| && c != b
    requires forall j :: 0 <= j < |s| ==> s[j] <= s[b]
    ensures s[c] <= MaxWithout(s, b) <= s[b]
  {
    var w := s[..b] + s[b + 1..];
    if c < b {
      assert w[c] == s[c];
    } else {
      assert w[c - 1] == s[c];
    }
    var k :| 0 <= k < |w| && w[k] == MaxWithout(s, b);
    if k < b {
      assert w[k] == s[k];
    } else {
      assert w[k] == s[k + 1];
    }
  }

  /** A score of 0.9 or more is always accepted, whatever the runner-up. */
  lemma PickHigh(s: seq<real>, cands: seq<Candidate>, j: nat)
    requires |s| == |cands| && j < |s| && s[j] >= 0.9
    ensures Pick(s, cands).Some?
  {
    assert s[j] <= s[BestOf(s)];
  }

  /** Two candidates sharing a best score below 0.9 make the match ambiguous. */
  lemma PickTie(s: seq<real>, cands: seq<Candidate>, i: nat, j: nat)
    requires |s| == |cands| && i < |s| && j < |s| && i != j && s[i] == s[j] < 0.9
    requires forall k :: 0 <= k < |s| ==> s[k] <= s[i]
    ensures Pick(s, cands).None?
  {
    var b := BestOf(s);
    assert s[i] <= s[b] && s[b] <= s[i];
    var c := if i != b then i else j;
    MaxWithoutBounds(s, b, c);
    assert SecondOf(s) == Some(s[b]);
  }

  /** A tie at the top by name is a tie at the top of the score list. */
  lemma ScoresTopTie(workName: string, cands: seq<Candidate>, i: nat, j: nat)
    requires i < |cands| && j < |cands|
    requires NameSimilarityScore(workName, cands[i].display) == NameSimilarityScore(workName, cands[j].display) < 0.9
    requires forall k :: 0 <= k < |cands| ==>
      NameSimilarityScore(workName, cands[k].display) <= NameSimilarityScore(workName, cands[i].display)
    ensures var s := Scores(workName, cands); s[i] == s[j] < 0.9 && forall k :: 0 <= k < |s| ==> s[k] <= s[i]
  {
    ScoreAt(workName, cands, i);
    ScoreAt(workName, cands, j);
    forall k | 0 <= k < |cands|
      ensures Scores(workName, cands)[k] <= Scores(workName, cands)[i]
    {
      ScoreAt(workName, cands, k);
    }
  }

  /** A tie at the top of the score list below 0.9 leaves the work name unmatched. */
  lemma TieVerdict(workName: string, cands: seq<Candidate>, i: nat, j: nat)
    requires i < |cands| && j < |cands| && i != j
    requires var s := Scores(workName, cands); s[i] == s[j] < 0.9 && forall k :: 0 <= k < |s| ==> s[k] <= s[i]
    ensures FuzzyVerdict(workName, cands).None?
  {
    PickTie(Scores(workName, cands), cands, i, j);
  }

  /** A work name scoring 0.9 or more against some candidate is always matched. */
  lemma FuzzyHighAccepted(workName: string, cands: seq<Candidate>, j: nat)
    requires j < |cands| && NameSimilarityScore(workName, cands[j].display) >= 0.9
    ensures FuzzyVerdict(workName, cands).Some?
  {
    ScoreAt(workName, cands, j);
    PickHigh(Scores(workName, cands), cands, j);
  }

  /** Two different candidates sharing the best score below 0.9 leave the work name unmatched. */
  lemma FuzzyTieRejected(workName: string, cands: seq<Candidate>, i: nat, j: nat)
    requires i < |cands| && j < |cands| && i != j
    requires NameSimilarityScore(workName, cands[i].display) == NameSimilarityScore(workName, cands[j].display)
    requires forall k :: 0 <= k < |cands| ==>
      NameSimilarityScore(workName, cands[k].display) <= NameSimilarityScore(workName, cands[i].display)
    requires NameSimilarityScore(workName, cands[i].display) < 0.9
    ensures FuzzyVerdict(workName, cands).None?
  {
    ScoresTopTie(workName, cands, i, j);
    TieVerdict(workName, cands, i, j);
  }

  /** The scan over the candidates for one work name. */
  method FuzzyMatchFor(workName: string, cands: seq<Candidate>) returns (m: Option<Match>)
    ensures m == FuzzyVerdict(workName, cands)
  {
    ghost var all := Scores(workName, cands);
    var scores: seq<real> := [];
    for j := 0 to |cands|
      invariant scores == all[..j]
    {
      var score := NameSimilarityScore(workName, cands[j].display);
      ScoreAt(workName, cands, j);
      PrefixSnoc(all, j);
      scores := scores + [score];
    }
    assert scores == all;
    m := PickScan(scores, cands);
  }

  /** Picks the verdict from the scores with one scan for the best and the runner-up. */
  method PickScan(scores: seq<real>, cands: seq<Candidate>) returns (m: Option<Match>)
    requires |scores| == |cands|
    ensures m == Pick(scores, cands)
  {
    var best, second := BestTwo(scores);
    if best.None? {
      m := None;
    } else {
      var top := scores[best.value];
      var runnerUp := if second.Some? then Some(scores[second.value]) else None;
      assert runnerUp == SecondOf(scores);
      if Accepted(top, runnerUp) {
        m := Some(Match(cands[best.value].key, cands[best.value].display, top));
      } else {
        m := None;
      }
    }
  }

  // ---------------------------------------------------------------------
  // Collecting the accepted matches
  // ---------------------------------------------------------------------

  /** No value occurs twice. */
  ghost predicate Distinct(s: seq<string>)
  {
    forall i, j :: 0 <= i < j < |s| ==> s[i] != s[j]
  }

  /** No operator occurs twice. */
  ghost predicate DistinctOperators(s: seq<Fuzzy>)
  {
    forall i, j :: 0 <= i < j < |s| ==> s[i].operator != s[j].operator
  }

  /** The verdict for one work operator: a name that is blank once trimmed is skipped. */
  function VerdictFor(op: string, cands: seq<Candidate>): Option<Match>
  {
    var workName := Trim(op);
    if workName == [] then None else FuzzyVerdict(workName, cands)
  }

  /** An operator that the fuzzy pass looks at and accepts. */
  ghost predicate Eligible(op: string, operators: seq<string>, linked: set<string>, verdict: string -> Option<Match>)
  {
    op in operators && op !in linked && verdict(op).Some?
  }

  /**
   * The accepted matches of the operators, in operator order: linked
   * operators and operators without a verdict are skipped.
   */
  function Collect(operators: seq<string>, linked: set<string>, verdict: string -> Option<Match>): (r: seq<Fuzzy>)
    ensures |r| <= |operators|
    ensures forall k :: 0 <= k < |r| ==> Eligible(r[k].operator, operators, linked, verdict)
    ensures forall k :: 0 <= k < |r| ==> verdict(r[k].operator) == Some(r[k].best)
  {
    if operators == [] then []
    else
      var init := Collect(operators[..|operators| - 1], linked, verdict);
      var op := operators[|operators| - 1];
      assert forall k :: 0 <= k < |init| ==> init[k].operator in operators[..|operators| - 1];
      if op in linked then init
      else
        match verdict(op)
        case None => init
        case Some(m) => init + [Fuzzy(op, m)]
  }

  /** Every eligible operator is collected, once. */
  lemma {:induction false} CollectSpec(operators: seq<string>, linked: set<string>, verdict: string -> Option<Match>)
    requires Distinct(operators)
    ensures DistinctOperators(Collect(operators, linked, verdict))
    ensures forall op :: Eligible(op, operators, linked, verdict) ==>
      exists k :: 0 <= k < |Collect(operators, linked, verdict)| && Collect(operators, linked, verdict)[k].operator == op
  {
    if operators != [] {
      var init := operators[..|operators| - 1];
      var last := operators[|operators| - 1];
      var r := Collect(operators, linked, verdict);
      var r0 := Collect(init, linked, verdict);
      assert Distinct(init);
      CollectSpec(init, linked, verdict);
      assert last !in init;
      forall op | Eligible(op, operators, linked, verdict)
        ensures exists k :: 0 <= k < |r| && r[k].operator == op
      {
        if op != last {
          var i :| 0 <= i < |operators| && operators[i] == op;
          assert init[i] == op;
          assert Eligible(op, init, linked, verdict);
          var k :| 0 <= k < |r0| && r0[k].operator == op;
          assert r[k] == r0[k];
        } else {
          assert r[|r| - 1].operator == op;
        }
      }
    }
  }

  /** The accepted fuzzy matches of the work operators. */
  function FuzzyCandidates(operators: seq<string>, linked: set<string>, cands: seq<Candidate>): seq<Fuzzy>
  {
    Collect(operators, linked, op => VerdictFor(op, cands))
  }

  /** The collecting loop over the work operators. */
  method CollectFuzzy(operators: seq<string>, linked: set<string>, cands: seq<Candidate>) returns (found: seq<Fuzzy>)
    ensures found == FuzzyCandidates(operators, linked, cands)
  {
    found := [];
    for i := 0 to |operators|
      invariant found == FuzzyCandidates(operators[..i], linked, cands)
    {
      assert operators[..i + 1][..i] == operators[..i];
      var op := operators[i];
      if op !in linked {
        var workName := Trim(op);
        if workName != [] {
          var m := FuzzyMatchFor(workName, cands);
          assert m == VerdictFor(op, cands);
          if m.Some? {
            found := found + [Fuzzy(op, m.value)];
          }
        }
      }
    }
    assert operators[..|operators|] == operators;
  }

  // ---------------------------------------------------------------------
  // Greedy one-to-one assignment
  // ---------------------------------------------------------------------

  /** The sort key that orders the matches by descending score. */
  function NegScore(f: Fuzzy): real
  {
    -f.best.score
  }

  /** `x` occurs twice in a sequence holding it twice. */
  lemma TwoCopies<T>(s: seq<T>, x: T)
    requires multiset(s)[x] >= 2
    ensures exists p, q :: 0 <= p < |s| && 0 <= q < |s| && p != q && s[p] == x && s[q] == x
  {
    assert x in multiset(s);
    var p :| 0 <= p < |s| && s[p] == x;
    assert s == s[..p] + [s[p]] + s[p + 1..];
    var rest := s[..p] + s[p + 1..];
    assert multiset(s) == multiset(rest) + multiset{x};
    assert x in multiset(rest);
    var r :| 0 <= r < |rest| && rest[r] == x;
    if r < p {
      assert s[r] == x;
    } else {
      assert s[r + 1] == x;
    }
  }

  /** Reordering keeps the operators distinct. */
  lemma DistinctOperatorsPermuted(a: seq<Fuzzy>, b: seq<Fuzzy>)
    requires multiset(a) == multiset(b) && DistinctOperators(a)
    ensures DistinctOperators(b)
  {
    forall i, j | 0 <= i < j < |b|
      ensures b[i].operator != b[j].operator
    {
      if b[i] == b[j] {
        assert b == b[..j] + [b[j]] + b[j + 1..];
        assert b[..j][i] == b[j];
        assert multiset(b)[b[j]] >= 2;
        TwoCopies(a, b[j]);
        assert false;
      }
      assert b[i] in multiset(a) && b[j] in multiset(a);
      var p :| 0 <= p < |a| && a[p] == b[i];
      var q :| 0 <= q < |a| && a[q] == b[j];
      if p < q {
        assert a[p].operator != a[q].operator;
      } else {
        assert a[q].operator != a[p].operator;
      }
    }
  }

  /** No earlier match in `ordered` is for the same attendance key. */
  ghost predicate FirstOfKey(ordered: seq<Fuzzy>, i: nat)
    requires i < |ordered|
  {
    forall j :: 0 <= j < i ==> ordered[j].best.key != ordered[i].best.key
  }

  /** Match `i` of `ordered` is the one recorded for its operator. */
  ghost predicate Granted(ordered: seq<Fuzzy>, i: nat, chosen: map<string, Match>)
    requires i < |ordered|
  {
    ordered[i].operator in chosen && chosen[ordered[i].operator] == ordered[i].best
  }

  /** No attendance key is given to two operators. */
  ghost predicate OneToOneMatch(chosen: map<string, Match>)
  {
    forall o1, o2 :: o1 in chosen && o2 in chosen && chosen[o1].key == chosen[o2].key ==> o1 == o2
  }

  /**
   * The assignment loop: a match is recorded unless its attendance key was
   * already used by an earlier match.
   */
  method AssignGreedy(ordered: seq<Fuzzy>) returns (chosen: map<string, Match>, used: set<string>)
    requires DistinctOperators(ordered)
    ensures forall i :: 0 <= i < |ordered| ==> (Granted(ordered, i, chosen) <==> FirstOfKey(ordered, i))
    ensures forall op :: op in chosen ==> exists i :: 0 <= i < |ordered| && ordered[i] == Fuzzy(op, chosen[op])
    ensures forall k :: k in used <==> exists op :: op in chosen && chosen[op].key == k
    ensures OneToOneMatch(chosen)
  {
    chosen := map[];
    used := {};
    for i := 0 to |ordered|
      invariant forall k :: k in used <==> exists j :: 0 <= j < i && ordered[j].best.key == k
      invariant forall op :: op in chosen ==> exists j :: 0 <= j < i && ordered[j] == Fuzzy(op, chosen[op])
      invariant forall j :: 0 <= j < i ==> (Granted(ordered, j, chosen) <==> FirstOfKey(ordered, j))
    {
      var item := ordered[i];
      if item.best.key !in used {
        assert item.operator !in chosen;
        chosen := chosen[item.operator := item.best];
        used := used + {item.best.key};
      }
    }
    GreedyOneToOne(ordered, chosen);
    GreedyUsed(ordered, chosen, used);
  }

  /** Every key of `ordered` has a first match. */
  lemma {:induction false} FirstOccurrence(ordered: seq<Fuzzy>, j: nat)
    requires j < |ordered|
    ensures exists i :: 0 <= i <= j && ordered[i].best.key == ordered[j].best.key && FirstOfKey(ordered, i)
    decreases j
  {
    if !FirstOfKey(ordered, j) {
      var i :| 0 <= i < j && ordered[i].best.key == ordered[j].best.key;
      FirstOccurrence(ordered, i);
    }
  }

  /** The used keys are the keys of the recorded matches. */
  lemma GreedyUsed(ordered: seq<Fuzzy>, chosen: map<string, Match>, used: set<string>)
    requires forall k :: k in used <==> exists j :: 0 <= j < |ordered| && ordered[j].best.key == k
    requires forall op :: op in chosen ==> exists i :: 0 <= i < |ordered| && ordered[i] == Fuzzy(op, chosen[op])
    requires forall i :: 0 <= i < |ordered| ==> (Granted(ordered, i, chosen) <==> FirstOfKey(ordered, i))
    ensures forall k :: k in used <==> exists op :: op in chosen && chosen[op].key == k
  {
    forall k | k in used
      ensures exists op :: op in chosen && chosen[op].key == k
    {
      var j :| 0 <= j < |ordered| && ordered[j].best.key == k;
      FirstOccurrence(ordered, j);
      var i :| 0 <= i <= j && ordered[i].best.key == k && FirstOfKey(ordered, i);
      assert Granted(ordered, i, chosen);
    }
    forall k | exists op :: op in chosen && chosen[op].key == k
      ensures k in used
    {
      var op :| op in chosen && chosen[op].key == k;
      var i :| 0 <= i < |ordered| && ordered[i] == Fuzzy(op, chosen[op]);
      assert ordered[i].best.key == k;
    }
  }

  /** Keys recorded only for the first match of each key are one-to-one. */
  lemma GreedyOneToOne(ordered: seq<Fuzzy>, chosen: map<string, Match>)
    requires forall op :: op in chosen ==> exists i :: 0 <= i < |ordered| && ordered[i] == Fuzzy(op, chosen[op])
    requires forall i :: 0 <= i < |ordered| ==> (Granted(ordered, i, chosen) <==> FirstOfKey(ordered, i))
    ensures OneToOneMatch(chosen)
  {
    forall o1, o2 | o1 in chosen && o2 in chosen && chosen[o1].key == chosen[o2].key
      ensures o1 == o2
    {
      var i :| 0 <= i < |ordered| && ordered[i] == Fuzzy(o1, chosen[o1]);
      var j :| 0 <= j < |ordered| && ordered[j] == Fuzzy(o2, chosen[o2]);
      assert Granted(ordered, i, chosen) && Granted(ordered, j, chosen);
      assert FirstOfKey(ordered, i) && FirstOfKey(ordered, j);
    }
  }

  /**
   * A match that was not recorded lost its attendance key to a recorded
   * match that comes earlier in descending score order, so scores at least
   * as much.
   */
  lemma GreedyBeaten(ordered: seq<Fuzzy>, chosen: map<string, Match>, i: nat)
    requires SortedBy(ordered, NegScore) && i < |ordered|
    requires forall j :: 0 <= j < |ordered| ==> (Granted(ordered, j, chosen) <==> FirstOfKey(ordered, j))
    ensures Granted(ordered, i, chosen) ||
      exists other :: other in chosen && chosen[other].key == ordered[i].best.key && chosen[other].score >= ordered[i].best.score
  {
    if !FirstOfKey(ordered, i) {
      FirstOccurrence(ordered, i);
      var j :| 0 <= j <= i && ordered[j].best.key == ordered[i].best.key && FirstOfKey(ordered, j);
      assert Granted(ordered, j, chosen);
      assert NegScore(ordered[j]) <= NegScore(ordered[i]);
    }
  }

  /** An element of a reordering is an element of the original. */
  lemma Reordered(found: seq<Fuzzy>, ordered: seq<Fuzzy>, x: Fuzzy)
    requires multiset(found) == multiset(ordered)
    ensures x in found <==> x in ordered
  {
    assert x in found <==> x in multiset(found);
    assert x in ordered <==> x in multiset(ordered);
  }

  /**
   * The greedy pass over the collected matches in descending score order:
   * every recorded match is the verdict for its operator, and an accepted
   * match that is not recorded lost its key to a match scoring at least as
   * much.
   */
  lemma AssignmentSpec(operators: seq<string>, linked: set<string>, verdict: string -> Option<Match>,
                       ordered: seq<Fuzzy>, chosen: map<string, Match>)
    requires Distinct(operators)
    requires multiset(Collect(operators, linked, verdict)) == multiset(ordered) && SortedBy(ordered, NegScore)
    requires forall op :: op in chosen ==> exists i :: 0 <= i < |ordered| && ordered[i] == Fuzzy(op, chosen[op])
    requires forall i :: 0 <= i < |ordered| ==> (Granted(ordered, i, chosen) <==> FirstOfKey(ordered, i))
    ensures forall op :: op in chosen ==> op in operators && op !in linked && verdict(op) == Some(chosen[op])
    ensures forall op :: Eligible(op, operators, linked, verdict) ==>
      op in chosen ||
      exists other :: other in chosen && chosen[other].key == verdict(op).value.key && chosen[other].score >= verdict(op).value.score
  {
    var found := Collect(operators, linked, verdict);
    CollectSpec(operators, linked, verdict);
    forall op | op in chosen
      ensures op in operators && op !in linked && verdict(op) == Some(chosen[op])
    {
      var i :| 0 <= i < |ordered| && ordered[i] == Fuzzy(op, chosen[op]);
      Reordered(found, ordered, ordered[i]);
      var k :| 0 <= k < |found| && found[k] == ordered[i];
    }
    forall op | Eligible(op, operators, linked, verdict)
      ensures op in chosen ||
        exists other :: other in chosen && chosen[other].key == verdict(op).value.key && chosen[other].score >= verdict(op).value.score
    {
      var k :| 0 <= k < |found| && found[k].operator == op;
      Reordered(found, ordered, found[k]);
      var i :| 0 <= i < |ordered| && ordered[i] == found[k];
      GreedyBeaten(ordered, chosen, i);
    }
  }

  /**
   * The fuzzy pass of `buildDetailRows`: collect the accepted matches of the
   * operators not linked yet, order them by descending score and record
   * each one whose attendance key is still free.
   */
  method FuzzyAssignment(operators: seq<string>, linked: set<string>, cands: seq<Candidate>)
    returns (chosen: map<string, Match>)
    requires Distinct(operators)
    ensures forall op :: op in chosen ==> op in operators && op !in linked && VerdictFor(op, cands) == Some(chosen[op])
    ensures OneToOneMatch(chosen)
    ensures forall op :: op in operators && op !in linked && VerdictFor(op, cands).Some? ==>
      op in chosen ||
      exists other :: other in chosen && chosen[other].key == VerdictFor(op, cands).value.key &&
        chosen[other].score >= VerdictFor(op, cands).value.score
  {
    var found := CollectFuzzy(operators, linked, cands);
    ghost var verdict := op => VerdictFor(op, cands);
    CollectSpec(operators, linked, verdict);
    var ordered := SortBy(found, NegScore);
    DistinctOperatorsPermuted(found, ordered);
    var used;
    chosen, used := AssignGreedy(ordered);
    AssignmentSpec(operators, linked, verdict, ordered, chosen);
    assert forall op :: verdict(op) == VerdictFor(op, cands);
  }

  // ---------------------------------------------------------------------
  // The row an unlinked work operator joins
  // ---------------------------------------------------------------------

  /** The attendance name an operator is mapped to: a manual link first, then a fuzzy match. */
  function MappedName(op: string, reverse: map<string, string>, fuzzy: map<string, Match>): string
  {
    var manual := if NormalizeWorkKey(op) in reverse then reverse[NormalizeWorkKey(op)] else [];
    if manual != [] then manual
    else if op in fuzzy then fuzzy[op].name
    else []
  }

  /** The key of the row the operator joins; an empty key means it joins none. */
  function RowKey(op: string, reverse: map<string, string>, fuzzy: map<string, Match>): string
  {
    var mapped := MappedName(op, reverse, fuzzy);
    if mapped != [] then NormalizeName(mapped) else NormalizeWorkKey(op)
  }

  /**
   * A manual link wins over any fuzzy match: an operator whose work key was
   * last linked to a non-blank attendance name joins the row of that name.
   */
  lemma ManualLinkJoins(nameMap: seq<(string, string)>, i: nat, op: string, fuzzy: map<string, Match>)
    requires i < |nameMap| && NormalizeWorkKey(nameMap[i].1) == NormalizeWorkKey(op) != []
    requires forall j :: i < j < |nameMap| ==> NormalizeWorkKey(nameMap[j].1) != NormalizeWorkKey(op)
    requires nameMap[i].0 != []
    ensures RowKey(op, ReverseNameMap(nameMap), fuzzy) == NormalizeName(nameMap[i].0)
  {
    ReverseNameMapLast(nameMap, i);
  }

  /**
   * Without a manual link, an operator with a recorded fuzzy match joins the
   * row of the matched candidate, when candidates are keyed by their
   * canonical names.
   */
  lemma FuzzyMatchJoins(op: string, reverse: map<string, string>, fuzzy: map<string, Match>, cands: seq<Candidate>)
    requires NormalizeWorkKey(op) !in reverse || reverse[NormalizeWorkKey(op)] == []
    requires forall j :: 0 <= j < |cands| ==> cands[j].display != [] && cands[j].key == NormalizeName(cands[j].display)
    requires op in fuzzy && VerdictFor(op, cands) == Some(fuzzy[op])
    ensures RowKey(op, reverse, fuzzy) == fuzzy[op].key
    ensures exists j :: 0 <= j < |cands| && cands[j].key == fuzzy[op].key
  {
    FuzzyVerdictSpec(Trim(op), cands);
    var j :| 0 <= j < |cands| && fuzzy[op] == Match(cands[j].key, cands[j].display, NameSimilarityScore(Trim(op), cands[j].display));
    assert fuzzy[op].name == cands[j].display;
  }

  /** With neither a manual link nor a fuzzy match, an operator keeps its own work key. */
  lemma UnmappedKeepsWorkKey(op: string, reverse: map<string, string>, fuzzy: map<string, Match>)
    requires NormalizeWorkKey(op) !in reverse || reverse[NormalizeWorkKey(op)] == []
    requires op !in fuzzy || fuzzy[op].name == []
    ensures RowKey(op, reverse, fuzzy) == NormalizeWorkKey(op)
    ensures Trim(op) == [] ==> RowKey(op, reverse, fuzzy) == []
  {
  }

  // ---------------------------------------------------------------------
  // Per-row figures
  // ---------------------------------------------------------------------

  /** Attendance below this many hours is too short to normalise by. */
  const MinAttendanceHours: real := 0.5

  /** `isAttendanceHoursReliable` (non-finite numbers are not modelled). */
  predicate IsAttendanceHoursReliable(hours: real)
  {
    hours >= MinAttendanceHours
  }

  /** `calcWorkRatioPercent`: effective work hours as a percentage of attendance hours. */
  function CalcWorkRatioPercent(ewhHours: real, attendanceHours: real): (r: Option<real>)
    ensures r.Some? <==> attendanceHours >= MinAttendanceHours
    ensures r.Some? ==> r.value * attendanceHours == ewhHours * 100.0
  {
    if IsAttendanceHoursReliable(attendanceHours) then Some(ewhHours / attendanceHours * 100.0) else None
  }

  /** The ratio reaches 100 exactly when the work hours reach the attendance hours. */
  lemma WorkRatioFull(ewhHours: real, attendanceHours: real)
    requires IsAttendanceHoursReliable(attendanceHours)
    ensures CalcWorkRatioPercent(ewhHours, attendanceHours).value >= 100.0 <==> ewhHours >= attendanceHours
  {
    var r := CalcWorkRatioPercent(ewhHours, attendanceHours).value;
    if r >= 100.0 {
      assert r * attendanceHours >= 100.0 * attendanceHours;
    } else {
      assert r * attendanceHours < 100.0 * attendanceHours;
    }
  }

  /** Picking counts 1.0 per unit, single-item packing 0.8, multi-item packing 0.5, sorting 0.3. */
  function WeightedUnits(picking: int, single: int, multi: int, sorting: int): real
  {
    picking as real * 1.0 + single as real * 0.8 + multi as real * 0.5 + sorting as real * 0.3
  }

  /** `Math.round(x * 100) / 100`: to two decimals, halves rounded up. */
  function Round2(x: real): (r: real)
    ensures x - 0.005 < r <= x + 0.005
    ensures (r * 100.0).Floor as real == r * 100.0
  {
    var n := (x * 100.0 + 0.5).Floor;
    assert n as real / 100.0 * 100.0 == n as real;
    n as real / 100.0
  }

  /** Rounding keeps the order. */
  lemma Round2Monotone(x: real, y: real)
    requires x <= y
    ensures Round2(x) <= Round2(y)
  {
    assert (x * 100.0 + 0.5).Floor <= (y * 100.0 + 0.5).Floor;
  }

  /**
   * The composite score of a row: weighted units per attendance hour, to two
   * decimals, or nothing when the attendance hours are too short.
   */
  function CompositeScore(picking: int, single: int, multi: int, sorting: int, hours: real): (r: Option<real>)
    ensures r.Some? <==> hours >= MinAttendanceHours
    ensures r.Some? ==> var exact := WeightedUnits(picking, single, multi, sorting) / hours;
      exact - 0.005 < r.value <= exact + 0.005
  {
    if IsAttendanceHoursReliable(hours) then Some(Round2(WeightedUnits(picking, single, multi, sorting) / hours)) else None
  }

  /** More units of any kind over the same attendance never lower the composite score. */
  lemma CompositeMonotone(p1: int, s1: int, m1: int, o1: int, p2: int, s2: int, m2: int, o2: int, hours: real)
    requires p1 <= p2 && s1 <= s2 && m1 <= m2 && o1 <= o2 && IsAttendanceHoursReliable(hours)
    ensures CompositeScore(p1, s1, m1, o1, hours).value <= CompositeScore(p2, s2, m2, o2, hours).value
  {
    var w1 := WeightedUnits(p1, s1, m1, o1);
    var w2 := WeightedUnits(p2, s2, m2, o2);
    assert w1 <= w2;
    assert w1 / hours <= w2 / hours;
    Round2Monotone(w1 / hours, w2 / hours);
  }

  /** 100 picked units and 50 sorted units over 8 attendance hours score 14.38. */
  lemma CompositeExample()
    ensures CompositeScore(100, 0, 0, 50, 8.0) == Some(14.38)
    ensures CompositeScore(100, 0, 0, 50, 0.4) == None
  {
    assert WeightedUnits(100, 0, 0, 50) / 8.0 == 14.375;
    assert (14.375 * 100.0 + 0.5).Floor == 1438;
  }

  /** The stage a row mostly worked in. */
  datatype Stage = NoStage | Picking | Packing | Sorting

  /** The units a row has in a stage; packing counts single and multi-item units. */
  function StageUnits(stage: Stage, picking: int, packing: int, sorting: int): int
  {
    match stage
    case NoStage => 0
    case Picking => picking
    case Packing => packing
    case Sorting => sorting
  }

  /**
   * `getDominantStageKey`: the stage with the most units, ties going to
   * picking, then packing, then sorting; no stage when no stage has units.
   */
  function GetDominantStageKey(picking: int, single: int, multi: int, sorting: int): (r: Stage)
    ensures r == NoStage <==> picking <= 0 && single + multi <= 0 && sorting <= 0
    ensures r != NoStage ==> var u := StageUnits(r, picking, single + multi, sorting);
      u >= picking && u >= single + multi && u >= sorting
    ensures r == Packing ==> picking < single + multi
    ensures r == Sorting ==> picking < sorting && single + multi < sorting
  {
    var packing := single + multi;
    var max := if picking >= packing && picking >= sorting then picking
      else if packing >= sorting then packing else sorting;
    if max <= 0 then NoStage
    else if picking == max then Picking
    else if packing == max then Packing
    else Sorting
  }
}
