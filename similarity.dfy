/**
 * The name similarity measures behind the fuzzy attendance match:
 * `tokenJaccard`, `bigrams`/`diceSimilarity`, `levenshteinDistance`,
 * `levenshteinSimilarity` and their combination `nameSimilarityScore`.
 * Scores are exact reals; the source computes them in floating point.
 */
module Similarity {
  import opened Text
  import opened Sorting
  import opened Names

  function MaxR(x: real, y: real): real { if x >= y then x else y }
  function MinR(x: real, y: real): real { if x <= y then x else y }
  function MinN(x: nat, y: nat, z: nat): (r: nat)
    ensures r <= x && r <= y && r <= z && (r == x || r == y || r == z)
  {
    if x <= y && x <= z then x else if y <= z then y else z
  }

  // ---------------------------------------------------------------------
  // tokenJaccard
  // ---------------------------------------------------------------------

  function Distinct(s: seq<string>): set<string>
  {
    set x | x in s
  }

  /**
   * `tokenJaccard`: shared distinct tokens over all distinct tokens, with the
   * union counted as `|A| + |B| - |A ∩ B|`; 0 when either list is empty.
   */
  function TokenJaccard(a: seq<string>, b: seq<string>): (r: real)
    ensures 0.0 <= r <= 1.0
  {
    if |a| == 0 || |b| == 0 then 0.0
    else
      var sa := Distinct(a);
      var sb := Distinct(b);
      var inter := |sa * sb|;
      var union := |sa| + |sb| - inter;
      UnionSize(sa, sb);
      assert a[0] in sa;
      if union > 0 then
        Share(inter as real, union as real);
        inter as real / union as real
      else 0.0
  }

  /** Inclusion-exclusion for two sets. */
  lemma UnionSize(sa: set<string>, sb: set<string>)
    ensures |sa + sb| == |sa| + |sb| - |sa * sb|
    ensures |sa * sb| <= |sa + sb| && |sa| <= |sa + sb|
  {
    assert |sa - sb| == |sa| - |sa * sb|;
    assert sa + sb == (sa - sb) + sb;
    assert (sa - sb) * sb == {};
  }

  /** The score times the size of the union is the size of the intersection. */
  lemma JaccardRatio(a: seq<string>, b: seq<string>)
    requires a != [] && b != []
    ensures TokenJaccard(a, b) * |Distinct(a) + Distinct(b)| as real == |Distinct(a) * Distinct(b)| as real
  {
    var sa := Distinct(a);
    var sb := Distinct(b);
    assert a[0] in sa;
    UnionSize(sa, sb);
  }

  lemma JaccardSymmetric(a: seq<string>, b: seq<string>)
    ensures TokenJaccard(a, b) == TokenJaccard(b, a)
  {
    assert Distinct(a) * Distinct(b) == Distinct(b) * Distinct(a);
  }

  /** Two non-empty token lists score 1 exactly when they hold the same tokens. */
  lemma JaccardOne(a: seq<string>, b: seq<string>)
    requires a != [] && b != []
    ensures TokenJaccard(a, b) == 1.0 <==> Distinct(a) == Distinct(b)
  {
    var sa := Distinct(a);
    var sb := Distinct(b);
    assert a[0] in sa;
    assert |sa - sb| == |sa| - |sa * sb| && |sb - sa| == |sb| - |sa * sb|;
    JaccardRatio(a, b);
    if TokenJaccard(a, b) == 1.0 {
      assert |sa * sb| == |sa + sb|;
      assert |sa - sb| == 0 && |sb - sa| == 0;
      assert sa - sb == {} && sb - sa == {};
      assert sa == sb by {
        forall x | x in sa ensures x in sb { assert x !in sa - sb; }
        forall x | x in sb ensures x in sa { assert x !in sb - sa; }
      }
    }
  }

  // ---------------------------------------------------------------------
  // bigrams and diceSimilarity
  // ---------------------------------------------------------------------

  /** The bigrams of a string without white space: its two-character windows, or the string itself when shorter. */
  function Windows(s: string): (r: seq<string>)
    ensures s == [] ==> r == []
    ensures |s| == 1 ==> r == [s]
    ensures |s| >= 2 ==> |r| == |s| - 1 && forall i :: 0 <= i < |r| ==> r[i] == s[i..i + 2]
  {
    if s == [] then []
    else if |s| < 2 then [s]
    else seq(|s| - 1, i requires 0 <= i < |s| - 1 => s[i..i + 2])
  }

  /** `bigrams`: white space is removed first. */
  method Bigrams(text: string) returns (out: seq<string>)
    ensures out == Windows(RemoveSpaces(text))
  {
    var s := RemoveSpaces(text);
    if s == [] {
      return [];
    }
    if |s| < 2 {
      return [s];
    }
    out := [];
    var i := 0;
    while i < |s| - 1
      invariant 0 <= i <= |s| - 1
      invariant |out| == i && forall k :: 0 <= k < i ==> out[k] == s[k..k + 2]
    {
      out := out + [s[i..i + 2]];
      i := i + 1;
    }
  }

  /**
   * The Dice coefficient of two bigram lists: twice the size of their
   * multiset intersection over the total number of bigrams.
   */
  function DiceOf(aa: seq<string>, bb: seq<string>): real
  {
    if |aa| == 0 || |bb| == 0 then 0.0
    else (2 * |multiset(aa) * multiset(bb)|) as real / (|aa| + |bb|) as real
  }

  /** `diceSimilarity` as a value: the Dice coefficient of the two bigram lists. */
  function Dice(a: string, b: string): real
  {
    DiceOf(Windows(RemoveSpaces(a)), Windows(RemoveSpaces(b)))
  }

  /** `counts.get(x) || 0` */
  function Count(counts: map<string, int>, x: string): int
  {
    if x in counts then counts[x] else 0
  }

  /** Adding one `x` to the second multiset adds one `x` to the intersection exactly when the first has a spare one. */
  lemma InterAdd(m: multiset<string>, n: multiset<string>, x: string)
    ensures m * (n + multiset{x}) == if m[x] > n[x] then (m * n) + multiset{x} else m * n
  {
    var lhs := m * (n + multiset{x});
    var rhs := if m[x] > n[x] then (m * n) + multiset{x} else m * n;
    forall y
      ensures lhs[y] == rhs[y]
    {
    }
  }

  lemma {:induction false} InterBound(m: multiset<string>, s: seq<string>)
    ensures |m * multiset(s)| <= |s|
    decreases |s|
  {
    if s != [] {
      var init := s[..|s| - 1];
      assert s == init + [s[|s| - 1]];
      InterBound(m, init);
      InterAdd(m, multiset(init), s[|s| - 1]);
    }
  }

  /** A share of a positive whole lies in [0, 1]. */
  lemma Share(part: real, whole: real)
    requires 0.0 <= part <= whole && whole > 0.0
    ensures 0.0 <= part / whole <= 1.0
    ensures part / whole == 1.0 <==> part == whole
  {
  }

  lemma DiceOfBounds(aa: seq<string>, bb: seq<string>)
    ensures 0.0 <= DiceOf(aa, bb) <= 1.0
  {
    InterBound(multiset(aa), bb);
    InterBound(multiset(bb), aa);
    assert multiset(aa) * multiset(bb) == multiset(bb) * multiset(aa);
    if |aa| > 0 && |bb| > 0 {
      Share((2 * |multiset(aa) * multiset(bb)|) as real, (|aa| + |bb|) as real);
    }
  }

  lemma DiceBounds(a: string, b: string)
    ensures 0.0 <= Dice(a, b) <= 1.0
  {
    DiceOfBounds(Windows(RemoveSpaces(a)), Windows(RemoveSpaces(b)));
  }

  lemma DiceSymmetric(a: string, b: string)
    ensures Dice(a, b) == Dice(b, a)
  {
    var aa := Windows(RemoveSpaces(a));
    var bb := Windows(RemoveSpaces(b));
    assert multiset(aa) * multiset(bb) == multiset(bb) * multiset(aa);
  }

  /** A text with at least one non-space character has Dice similarity 1 with itself. */
  lemma DiceSelf(a: string)
    requires RemoveSpaces(a) != []
    ensures Dice(a, a) == 1.0
  {
    var aa := Windows(RemoveSpaces(a));
    assert multiset(aa) * multiset(aa) == multiset(aa);
    Share((2 * |aa|) as real, (|aa| + |aa|) as real);
  }

  /** The first loop of `diceSimilarity`: how often each bigram of `a` occurs. */
  method CountBigrams(aa: seq<string>) returns (counts: map<string, int>)
    ensures forall x :: Count(counts, x) == multiset(aa)[x]
  {
    counts := map[];
    var i := 0;
    while i < |aa|
      invariant 0 <= i <= |aa|
      invariant forall x :: Count(counts, x) == multiset(aa[..i])[x]
    {
      assert aa[..i + 1] == aa[..i] + [aa[i]];
      counts := counts[aa[i] := Count(counts, aa[i]) + 1];
      i := i + 1;
    }
    assert aa[..i] == aa;
  }

  /** After `j` bigrams of `b`: `inter` found so far, and the counts left of each bigram of `a`. */
  ghost predicate MatchInv(aa: seq<string>, bb: seq<string>, j: nat, counts: map<string, int>, inter: nat)
    requires j <= |bb|
  {
    inter == |multiset(aa) * multiset(bb[..j])|
    && forall x :: Count(counts, x) == multiset(aa)[x] - (multiset(aa) * multiset(bb[..j]))[x]
  }

  lemma MatchStep(aa: seq<string>, bb: seq<string>, j: nat, counts: map<string, int>, inter: nat)
    requires j < |bb| && MatchInv(aa, bb, j, counts, inter)
    ensures var c := Count(counts, bb[j]);
      MatchInv(aa, bb, j + 1, if c > 0 then counts[bb[j] := c - 1] else counts, if c > 0 then inter + 1 else inter)
  {
    var x := bb[j];
    assert bb[..j + 1] == bb[..j] + [x];
    InterAdd(multiset(aa), multiset(bb[..j]), x);
  }

  /** The second loop: each bigram of `b` found with a count left uses one up. */
  method MatchBigrams(aa: seq<string>, counts0: map<string, int>, bb: seq<string>) returns (inter: nat)
    requires forall x :: Count(counts0, x) == multiset(aa)[x]
    ensures inter == |multiset(aa) * multiset(bb)|
  {
    var counts := counts0;
    inter := 0;
    var j := 0;
    while j < |bb|
      invariant 0 <= j <= |bb|
      invariant MatchInv(aa, bb, j, counts, inter)
    {
      MatchStep(aa, bb, j, counts, inter);
      var x := bb[j];
      var c := Count(counts, x);
      if c > 0 {
        inter := inter + 1;
        counts := counts[x := c - 1];
      }
      j := j + 1;
    }
    assert bb[..j] == bb;
  }

  /**
   * `diceSimilarity`: counts the bigrams of `a` in a map, then walks the
   * bigrams of `b`, using up one count per bigram it finds. The number found
   * is the size of the multiset intersection.
   */
  method DiceSimilarity(a: string, b: string) returns (r: real)
    ensures r == Dice(a, b)
    ensures 0.0 <= r <= 1.0
  {
    DiceBounds(a, b);
    var aa := Bigrams(a);
    var bb := Bigrams(b);
    if |aa| == 0 || |bb| == 0 {
      return 0.0;
    }
    var counts := CountBigrams(aa);
    var inter := MatchBigrams(aa, counts, bb);
    r := (2 * inter) as real / (|aa| + |bb|) as real;
  }

  // ---------------------------------------------------------------------
  // levenshteinDistance
  // ---------------------------------------------------------------------

  /** The edit distance: fewest single-character insertions, deletions and substitutions turning `a` into `b`. */
  function EditDistance(a: string, b: string): nat
    decreases |a| + |b|
  {
    if |a| == 0 then |b|
    else if |b| == 0 then |a|
    else MinN(EditDistance(a[..|a| - 1], b) + 1,
              EditDistance(a, b[..|b| - 1]) + 1,
              EditDistance(a[..|a| - 1], b[..|b| - 1]) + (if a[|a| - 1] == b[|b| - 1] then 0 else 1))
  }

  /** Every string is at distance 0 from itself. */
  lemma {:induction false} EditSelf(a: string)
    ensures EditDistance(a, a) == 0
    decreases |a|
  {
    if a != [] {
      EditSelf(a[..|a| - 1]);
    }
  }

  /** Distance 0 means equal strings. */
  lemma {:induction false} EditZero(a: string, b: string)
    requires EditDistance(a, b) == 0
    ensures a == b
    decreases |a| + |b|
  {
    if |a| > 0 && |b| > 0 {
      EditZero(a[..|a| - 1], b[..|b| - 1]);
      assert a == a[..|a| - 1] + [a[|a| - 1]];
      assert b == b[..|b| - 1] + [b[|b| - 1]];
    }
  }

  lemma {:induction false} EditSymmetric(a: string, b: string)
    ensures EditDistance(a, b) == EditDistance(b, a)
    decreases |a| + |b|
  {
    if |a| > 0 && |b| > 0 {
      EditSymmetric(a[..|a| - 1], b);
      EditSymmetric(a, b[..|b| - 1]);
      EditSymmetric(a[..|a| - 1], b[..|b| - 1]);
    }
  }

  /** The distance never exceeds the longer length (substitute, then insert or delete the rest). */
  lemma {:induction false} EditUpper(a: string, b: string)
    ensures EditDistance(a, b) <= if |a| >= |b| then |a| else |b|
    decreases |a| + |b|
  {
    if |a| > 0 && |b| > 0 {
      EditUpper(a[..|a| - 1], b[..|b| - 1]);
    }
  }

  /** Nor falls short of the difference in length. */
  lemma {:induction false} EditLower(a: string, b: string)
    ensures EditDistance(a, b) >= if |a| >= |b| then |a| - |b| else |b| - |a|
    decreases |a| + |b|
  {
    if |a| > 0 && |b| > 0 {
      EditLower(a[..|a| - 1], b);
      EditLower(a, b[..|b| - 1]);
      EditLower(a[..|a| - 1], b[..|b| - 1]);
    }
  }

  /** The recurrence of the table: the distance between prefixes of length `i` and `j`. */
  lemma EditStep(a: string, b: string, i: nat, j: nat)
    requires 1 <= i <= |a| && 1 <= j <= |b|
    ensures EditDistance(a[..i], b[..j])
      == MinN(EditDistance(a[..i - 1], b[..j]) + 1,
              EditDistance(a[..i], b[..j - 1]) + 1,
              EditDistance(a[..i - 1], b[..j - 1]) + (if a[i - 1] == b[j - 1] then 0 else 1))
  {
    assert a[..i][..i - 1] == a[..i - 1];
    assert b[..j][..j - 1] == b[..j - 1];
  }

  /** Row `i` of the table: distances from `a[..i]` to every prefix of `b`. */
  ghost predicate RowOf(row: array<nat>, a: string, b: string, i: nat, upTo: nat)
    requires i <= |a| && upTo <= |b| + 1 && row.Length == |b| + 1
    reads row
  {
    forall k :: 0 <= k < upTo ==> row[k] == EditDistance(a[..i], b[..k])
  }

  /** One cell of the table from its three neighbours. */
  lemma CellValue(a: string, b: string, i: nat, j: nat, up: nat, left: nat, diag: nat)
    requires 1 <= i <= |a| && 1 <= j <= |b|
    requires up == EditDistance(a[..i - 1], b[..j])
    requires left == EditDistance(a[..i], b[..j - 1])
    requires diag == EditDistance(a[..i - 1], b[..j - 1])
    ensures MinN(up + 1, left + 1, diag + (if a[i - 1] == b[j - 1] then 0 else 1)) == EditDistance(a[..i], b[..j])
  {
    EditStep(a, b, i, j);
  }

  /** One row of the table: `cur` for `a[..i]` from `prev` for `a[..i - 1]`. */
  method FillRow(a: string, b: string, i: nat, prev: array<nat>, cur: array<nat>)
    requires 1 <= i <= |a| && prev != cur
    requires prev.Length == |b| + 1 && cur.Length == |b| + 1
    requires RowOf(prev, a, b, i - 1, |b| + 1)
    modifies cur
    ensures RowOf(cur, a, b, i, |b| + 1)
  {
    cur[0] := i;
    var j := 1;
    while j <= |b|
      invariant 1 <= j <= |b| + 1
      invariant RowOf(cur, a, b, i, j)
    {
      var cost := if a[i - 1] == b[j - 1] then 0 else 1;
      CellValue(a, b, i, j, prev[j], cur[j - 1], prev[j - 1]);
      var cell := MinN(prev[j] + 1, cur[j - 1] + 1, prev[j - 1] + cost);
      assert cell == EditDistance(a[..i], b[..j]);
      cur[j] := cell;
      j := j + 1;
    }
  }

  /** `for (let j = 0; j <= n; j += 1) prev[j] = cur[j]` */
  method CopyRow(src: array<nat>, dst: array<nat>)
    requires src != dst && src.Length == dst.Length
    modifies dst
    ensures forall k :: 0 <= k < dst.Length ==> dst[k] == src[k]
  {
    var j := 0;
    while j < dst.Length
      invariant 0 <= j <= dst.Length
      invariant forall k :: 0 <= k < j ==> dst[k] == src[k]
    {
      dst[j] := src[j];
      j := j + 1;
    }
  }

  /**
   * `levenshteinDistance`: the two-row dynamic programme. `prev` holds the
   * row of `a[..i - 1]`, `cur` is filled left to right for `a[..i]` and then
   * copied into `prev`.
   */
  method LevenshteinDistance(a: string, b: string) returns (d: nat)
    ensures d == EditDistance(a, b)
  {
    var m := |a|;
    var n := |b|;
    if m == 0 {
      return n;
    }
    if n == 0 {
      return m;
    }
    var prev := new nat[n + 1];
    var cur := new nat[n + 1];
    var j := 0;
    while j <= n
      invariant 0 <= j <= n + 1
      invariant forall k :: 0 <= k < j ==> prev[k] == k
    {
      prev[j] := j;
      j := j + 1;
    }
    assert RowOf(prev, a, b, 0, n + 1);
    var i := 1;
    while i <= m
      invariant 1 <= i <= m + 1
      invariant RowOf(prev, a, b, i - 1, n + 1)
    {
      FillRow(a, b, i, prev, cur);
      CopyRow(cur, prev);
      i := i + 1;
    }
    assert a[..m] == a && b[..n] == b;
    d := prev[n];
  }

  // ---------------------------------------------------------------------
  // levenshteinSimilarity
  // ---------------------------------------------------------------------

  function Longer(x: nat, y: nat): nat { if x >= y then x else y }

  /**
   * `levenshteinSimilarity`: on the texts without white space, 0 when either
   * is empty, otherwise one minus the edit distance over the longer length.
   */
  function LevenshteinSimilarity(a: string, b: string): (r: real)
    ensures 0.0 <= r <= 1.0
    ensures r == 1.0 <==> RemoveSpaces(a) != [] && RemoveSpaces(a) == RemoveSpaces(b)
    ensures RemoveSpaces(a) == [] || RemoveSpaces(b) == [] ==> r == 0.0
  {
    var left := RemoveSpaces(a);
    var right := RemoveSpaces(b);
    if left == [] || right == [] then 0.0
    else if left == right then 1.0
    else
      var dist := EditDistance(left, right);
      EditUpper(left, right);
      assert dist > 0 by {
        if dist == 0 {
          EditZero(left, right);
        }
      }
      Share(dist as real, Longer(|left|, |right|) as real);
      1.0 - dist as real / Longer(|left|, |right|) as real
  }

  lemma LevenshteinSymmetric(a: string, b: string)
    ensures LevenshteinSimilarity(a, b) == LevenshteinSimilarity(b, a)
  {
    EditSymmetric(RemoveSpaces(a), RemoveSpaces(b));
  }

  /** Deleting the rest of a longer string is one way to reach its prefix. */
  lemma {:induction false} EditPrefix(x: string, y: string)
    requires |y| <= |x| && y == x[..|y|]
    ensures EditDistance(x, y) <= |x| - |y|
    decreases |x|
  {
    if |y| == |x| {
      assert x == y;
      EditSelf(x);
    } else {
      var x' := x[..|x| - 1];
      assert y == x'[..|y|];
      EditPrefix(x', y);
      if |y| > 0 {
        assert EditDistance(x, y) <= EditDistance(x', y) + 1;
      }
    }
  }

  lemma DivMono(x: real, y: real, z: real)
    requires 0.0 <= x <= y && z > 0.0
    ensures x / z <= y / z
  {
  }

  /** The value of the similarity when both texts are non-empty and differ. */
  lemma LevenshteinValue(x: string, y: string)
    requires RemoveSpaces(x) != [] && RemoveSpaces(y) != [] && RemoveSpaces(x) != RemoveSpaces(y)
    ensures LevenshteinSimilarity(x, y)
      == 1.0 - EditDistance(RemoveSpaces(x), RemoveSpaces(y)) as real
             / Longer(|RemoveSpaces(x)|, |RemoveSpaces(y)|) as real
  {
  }

  lemma Complement(whole: real, part: real)
    requires whole > 0.0
    ensures (whole - part) / whole == 1.0 - part / whole
  {
    var q := part / whole;
    var d := (whole - part) / whole;
    assert q * whole == part;
    assert d * whole == whole - part;
    ZeroFactor(d - (1.0 - q), whole);
  }

  lemma ZeroFactor(e: real, w: real)
    requires e * w == 0.0 && w > 0.0
    ensures e == 0.0
  {
  }

  /** A prefix keeps at least its share of the longer text. */
  lemma LevenshteinPrefix(x: string, y: string)
    requires RemoveSpaces(y) != [] && |RemoveSpaces(y)| <= |RemoveSpaces(x)|
    requires RemoveSpaces(y) == RemoveSpaces(x)[..|RemoveSpaces(y)|]
    ensures LevenshteinSimilarity(x, y) >= |RemoveSpaces(y)| as real / |RemoveSpaces(x)| as real
  {
    var left := RemoveSpaces(x);
    var right := RemoveSpaces(y);
    var n := |left| as real;
    var m := |right| as real;
    if left != right {
      EditPrefix(left, right);
      var dist := EditDistance(left, right);
      LevenshteinValue(x, y);
      assert Longer(|left|, |right|) == |left|;
      DivMono(dist as real, n - m, n);
      Complement(n, m);
    } else {
      Share(m, n);
    }
  }

  // ---------------------------------------------------------------------
  // nameSimilarityScore
  // ---------------------------------------------------------------------

  /** `[...tokens].sort().join(' ')` for the tokens of a name. */
  function SortedKey(a: string): string
  {
    Join(SortStrings(NameTokens(a)), " ")
  }

  /** The largest of the five measures on the canonical names `a` and `b`. */
  function Measures(a: string, b: string): (r: real)
    ensures 0.0 <= r <= 1.0
    ensures r >= LevenshteinSimilarity(a, b)
  {
    var aSorted := SortedKey(a);
    var bSorted := SortedKey(b);
    DiceBounds(a, b);
    DiceBounds(aSorted, bSorted);
    MaxR(MaxR(MaxR(MaxR(TokenJaccard(NameTokens(a), NameTokens(b)), Dice(a, b)), Dice(aSorted, bSorted)),
              LevenshteinSimilarity(a, b)),
         LevenshteinSimilarity(aSorted, bSorted))
  }

  /** One name starts with the other and the shorter has at least four characters. */
  predicate PrefixPair(a: string, b: string)
  {
    (StartsWith(a, b) || StartsWith(b, a)) && (if |a| <= |b| then |a| else |b|) >= 4
  }

  /** A measure plus the prefix bonus, capped at 1. */
  function Boosted(m: real, prefix: bool): real
  {
    MinR(1.0, m + (if prefix then 0.08 else 0.0))
  }

  lemma PrefixPairSymmetric(a: string, b: string)
    ensures PrefixPair(a, b) == PrefixPair(b, a)
  {
  }

  /**
   * The score of two canonical names: 0 when either is empty, 1 when they
   * are equal, 0.96 for the same words in another order, otherwise the best
   * of the five measures plus 0.08 for a prefix pair, capped at 1.
   */
  function KeyScore(a: string, b: string): (r: real)
    ensures 0.0 <= r <= 1.0
    ensures a == [] || b == [] ==> r == 0.0
    ensures a != [] && a == b ==> r == 1.0
  {
    if a == [] || b == [] then 0.0
    else if a == b then 1.0
    else if SortedKey(a) != [] && SortedKey(a) == SortedKey(b) then 0.96
    else Boosted(Measures(a, b), PrefixPair(a, b))
  }

  /** `nameSimilarityScore`: the score of the two names' canonical forms. */
  function NameSimilarityScore(left: string, right: string): (r: real)
    ensures 0.0 <= r <= 1.0
    ensures NormalizeName(left) == [] || NormalizeName(right) == [] ==> r == 0.0
    ensures NormalizeName(left) != [] && NormalizeName(left) == NormalizeName(right) ==> r == 1.0
  {
    KeyScore(NormalizeName(left), NormalizeName(right))
  }

  lemma MeasuresSymmetric(a: string, b: string)
    ensures Measures(a, b) == Measures(b, a)
  {
    JaccardSymmetric(NameTokens(a), NameTokens(b));
    DiceSymmetric(a, b);
    DiceSymmetric(SortedKey(a), SortedKey(b));
    LevenshteinSymmetric(a, b);
    LevenshteinSymmetric(SortedKey(a), SortedKey(b));
  }

  /** Distinct names that are not reorderings of each other get the boosted measure. */
  lemma KeyScoreMeasured(a: string, b: string)
    requires a != [] && b != [] && a != b && !(SortedKey(a) != [] && SortedKey(a) == SortedKey(b))
    ensures KeyScore(a, b) == Boosted(Measures(a, b), PrefixPair(a, b))
  {
  }

  lemma KeyScoreReordered(a: string, b: string)
    requires a != [] && b != [] && a != b && SortedKey(a) != [] && SortedKey(a) == SortedKey(b)
    ensures KeyScore(a, b) == 0.96
  {
  }

  lemma KeyScoreSymmetric(a: string, b: string)
    ensures KeyScore(a, b) == KeyScore(b, a)
  {
    if a == [] || b == [] || a == b {
    } else if SortedKey(a) != [] && SortedKey(a) == SortedKey(b) {
      KeyScoreReordered(a, b);
      KeyScoreReordered(b, a);
    } else {
      KeyScoreMeasured(a, b);
      KeyScoreMeasured(b, a);
      BoostedSymmetric(a, b);
    }
  }

  lemma BoostedSymmetric(a: string, b: string)
    ensures Boosted(Measures(a, b), PrefixPair(a, b)) == Boosted(Measures(b, a), PrefixPair(b, a))
  {
    MeasuresSymmetric(a, b);
    PrefixPairSymmetric(a, b);
  }

  /** The score does not depend on which name is the work name. */
  lemma ScoreSymmetric(left: string, right: string)
    ensures NameSimilarityScore(left, right) == NameSimilarityScore(right, left)
  {
    KeyScoreSymmetric(NormalizeName(left), NormalizeName(right));
  }

  lemma {:induction false} JoinNonEmpty(parts: seq<string>, sep: string)
    requires parts != [] && parts[0] != []
    ensures Join(parts, sep) != []
  {
  }

  /** A non-empty canonical name has a non-empty sorted key. */
  lemma SortedKeyNonEmpty(t: string)
    requires Normalized(t) && t != []
    ensures SortedKey(t) != []
  {
    NormalizeFixes(t);
    var tokens := NameTokens(t);
    assert tokens != [];
    var sorted := SortStrings(tokens);
    assert sorted[0] in multiset(sorted);
    assert sorted[0] in tokens;
    JoinNonEmpty(sorted, " ");
  }

  /** The same words in another order score 0.96. */
  lemma ReorderedScore(left: string, right: string)
    requires NormalizeName(left) != [] && NormalizeName(left) != NormalizeName(right)
    requires NormalizeName(right) != []
    requires SortedKey(NormalizeName(left)) == SortedKey(NormalizeName(right))
    ensures NameSimilarityScore(left, right) == 0.96
  {
    SortedKeyNonEmpty(NormalizeName(left));
  }

  lemma {:induction false} RemoveSpacesPrefix(x: string, y: string)
    requires |y| <= |x| && y == x[..|y|]
    ensures |RemoveSpaces(y)| <= |RemoveSpaces(x)| && RemoveSpaces(y) == RemoveSpaces(x)[..|RemoveSpaces(y)|]
    decreases |y|
  {
    if y != [] {
      assert y[1..] == x[1..][..|y| - 1];
      RemoveSpacesPrefix(x[1..], y[1..]);
    }
  }

  /**
   * When one text starts another, the edit similarity is at least the
   * shorter's share of the longer, counted without white space.
   */
  lemma StartsWithShare(a: string, b: string)
    requires RemoveSpaces(b) != [] && StartsWith(a, b)
    ensures |RemoveSpaces(a)| > 0
    ensures LevenshteinSimilarity(a, b) >= |RemoveSpaces(b)| as real / |RemoveSpaces(a)| as real
  {
    RemoveSpacesPrefix(a, b);
    LevenshteinPrefix(a, b);
  }

  lemma PrefixPairOf(a: string, b: string)
    requires StartsWith(a, b) && |b| >= 4
    ensures PrefixPair(a, b)
  {
  }

  lemma BoostedAtLeast(k: real, m: real, q: real)
    requires k == Boosted(m, true) && m >= q
    ensures k == 1.0 || k >= q + 0.08
  {
  }

  /** A prefix pair that is not a reordering gets the boosted best measure. */
  lemma KeyPrefixBoost(a: string, b: string)
    requires a != b && |b| >= 4 && StartsWith(a, b) && SortedKey(a) != SortedKey(b)
    ensures KeyScore(a, b) == Boosted(Measures(a, b), true)
    ensures KeyScore(a, b) == 1.0 || KeyScore(a, b) >= LevenshteinSimilarity(a, b) + 0.08
  {
    PrefixPairOf(a, b);
    KeyScoreMeasured(a, b);
    BoostedAtLeast(KeyScore(a, b), Measures(a, b), LevenshteinSimilarity(a, b));
  }

  /**
   * When one canonical name of four or more characters starts the other and
   * they are not reorderings of each other, the score is the best measure
   * plus 0.08 (capped at 1), so 1 or at least the edit similarity plus 0.08.
   */
  lemma PrefixBoost(left: string, right: string)
    requires var a := NormalizeName(left); var b := NormalizeName(right);
      a != b && |b| >= 4 && StartsWith(a, b) && SortedKey(a) != SortedKey(b)
    ensures var a := NormalizeName(left); var b := NormalizeName(right);
      NameSimilarityScore(left, right) == Boosted(Measures(a, b), true) &&
      (NameSimilarityScore(left, right) == 1.0 ||
       NameSimilarityScore(left, right) >= LevenshteinSimilarity(a, b) + 0.08)
  {
    KeyPrefixBoost(NormalizeName(left), NormalizeName(right));
  }
}
