/**
 * Name canonicalisation used to link attendance names with work-system
 * operator names: `normalizeName`, `normalizeWorkKey`, `toDisplayName`
 * and `nameTokens`.
 *
 * Case mapping and the NFD diacritic fold are modelled for Latin-1
 * (U+0000 to U+00FF); other characters are left as they are.
 */
module Names {
  import opened Text

  /** The characters that survive `normalizeName`: `a`-`z` and the CJK block U+4E00 to U+9FFF. */
  predicate Allowed(c: char)
  {
    'a' <= c <= 'z' || '\U{4E00}' <= c <= '\U{9FFF}'
  }

  /** The shape of a canonical name: allowed characters separated by single spaces. */
  predicate Normalized(t: string)
  {
    (forall i :: 0 <= i < |t| ==> Allowed(t[i]) || t[i] == ' ')
    && (t == [] || (t[0] != ' ' && t[|t| - 1] != ' '))
    && (forall i :: 0 <= i < |t| - 1 ==> t[i] == ' ' ==> t[i + 1] != ' ')
  }

  // ---------------------------------------------------------------------
  // The trailing parenthetical
  // ---------------------------------------------------------------------

  /** `(`, characters other than `)`, `)`. */
  predicate Enclosed(w: string)
  {
    |w| >= 2 && w[0] == '(' && w[|w| - 1] == ')'
    && forall k :: 0 < k < |w| - 1 ==> w[k] != ')'
  }

  predicate HasDigit(w: string)
  {
    exists k :: 0 <= k < |w| && IsDigit(w[k])
  }

  /**
   * `t` as a whole is white space, a parenthesised part and white space;
   * with `digit`, the parenthesised part contains a digit.
   */
  predicate ParenTail(t: string, digit: bool)
  {
    Enclosed(Trim(t)) && (digit ==> HasDigit(Trim(t)))
  }

  /** `/\s*\([^)]*\)\s*$/.test(s)`, or the variant requiring a digit inside. */
  predicate HasTail(s: string, digit: bool)
  {
    exists i :: 0 <= i < |s| && ParenTail(s[i..], digit)
  }

  /** The leftmost position at or after `i` from which the rest of `s` is a tail, or `|s|`. */
  function CutFrom(s: string, digit: bool, i: nat): (k: nat)
    requires i <= |s|
    requires forall j :: 0 <= j < i ==> !ParenTail(s[j..], digit)
    ensures i <= k <= |s|
    ensures forall j :: 0 <= j < k ==> !ParenTail(s[j..], digit)
    ensures k == |s| || ParenTail(s[k..], digit)
    decreases |s| - i
  {
    if i == |s| then i
    else if ParenTail(s[i..], digit) then i
    else CutFrom(s, digit, i + 1)
  }

  /**
   * `s.replace(tail, '')`: the regular expression is anchored at the end,
   * so the match removed is the one starting leftmost, and it is the only
   * one. The result is the part before it, or `s` when there is none.
   */
  function CutTail(s: string, digit: bool): (r: string)
    ensures |r| <= |s| && r == s[..|r|]
    ensures |r| < |s| <==> HasTail(s, digit)
  {
    s[..CutFrom(s, digit, 0)]
  }

  /** The cut is the leftmost match: no tail starts before it, and one starts at it when anything is cut. */
  lemma CutTailLeftmost(s: string, digit: bool)
    ensures var r := CutTail(s, digit);
      (forall j :: 0 <= j < |r| ==> !ParenTail(s[j..], digit))
      && (|r| == |s| || ParenTail(s[|r|..], digit))
  {
  }

  // ---------------------------------------------------------------------
  // normalizeName
  // ---------------------------------------------------------------------

  predicate IsCombining(c: char)
  {
    '\U{300}' <= c <= '\U{36F}'
  }

  /** The base letter NFD leaves for a lower-case Latin-1 letter once its combining mark is stripped. */
  function FoldChar(c: char): (r: char)
    ensures Allowed(c) || c == ' ' ==> r == c
  {
    if '\U{E0}' <= c <= '\U{E5}' then 'a'
    else if c == '\U{E7}' then 'c'
    else if '\U{E8}' <= c <= '\U{EB}' then 'e'
    else if '\U{EC}' <= c <= '\U{EF}' then 'i'
    else if c == '\U{F1}' then 'n'
    else if '\U{F2}' <= c <= '\U{F6}' then 'o'
    else if '\U{F9}' <= c <= '\U{FC}' then 'u'
    else if c == '\U{FD}' || c == '\U{FF}' then 'y'
    else c
  }

  /** `s.normalize('NFD').replace(/[\u0300-\u036f]/g, '')` */
  function Fold(s: string): (r: string)
    ensures |r| <= |s|
  {
    if s == [] then []
    else (if IsCombining(s[0]) then [] else [FoldChar(s[0])]) + Fold(s[1..])
  }

  /**
   * `s.replace(/[^a-z\u4e00-\u9fff]+/g, ' ')`: every maximal run of other
   * characters becomes one space. `inRun` says the character before `s` was
   * such a character and its space was already emitted.
   */
  function LettersOnly(s: string, inRun: bool): (r: string)
    ensures forall i :: 0 <= i < |r| ==> Allowed(r[i]) || r[i] == ' '
    ensures forall i :: 0 <= i < |r| - 1 ==> r[i] == ' ' ==> r[i + 1] != ' '
    ensures inRun && r != [] ==> r[0] != ' '
  {
    if s == [] then []
    else if Allowed(s[0]) then
      var rest := LettersOnly(s[1..], false);
      assert forall i :: 0 < i < |[s[0]] + rest| ==> ([s[0]] + rest)[i] == rest[i - 1];
      [s[0]] + rest
    else
      var rest := LettersOnly(s[1..], true);
      assert forall i :: 0 < i < |[' '] + rest| ==> ([' '] + rest)[i] == rest[i - 1];
      (if inRun then [] else [' ']) + rest
  }

  /** `s.replace(/\s+/g, ' ')`, with `inRun` as in `LettersOnly`. */
  function CollapseSpaces(s: string, inRun: bool): string
  {
    if s == [] then []
    else if !IsSpace(s[0]) then [s[0]] + CollapseSpaces(s[1..], false)
    else (if inRun then [] else [' ']) + CollapseSpaces(s[1..], true)
  }

  /**
   * `normalizeName`: drop the trailing parenthetical, lower-case, fold
   * diacritics, turn every run of other characters into a space, collapse
   * white space and trim. The `\b\d+\b` step in between has nothing left
   * to match, since no digit survives `LettersOnly` (see `NoDigitLeft`).
   */
  function NormalizeName(name: string): (r: string)
    ensures Normalized(r)
  {
    var letters := LettersOnly(Fold(Lower(CutTail(name, false))), false);
    LettersOnlyCollapsed(letters, false);
    TrimNormalized(letters);
    Trim(CollapseSpaces(letters, false))
  }

  /** The digit-removal step of `normalizeName` is dead: its input holds no digit. */
  lemma NoDigitLeft(s: string)
    ensures forall i :: 0 <= i < |LettersOnly(s, false)| ==> !IsDigit(LettersOnly(s, false)[i])
  {
  }

  lemma {:induction false} LettersOnlyCollapsed(t: string, inRun: bool)
    requires forall i :: 0 <= i < |t| ==> Allowed(t[i]) || t[i] == ' '
    requires forall i :: 0 <= i < |t| - 1 ==> t[i] == ' ' ==> t[i + 1] != ' '
    requires inRun && t != [] ==> t[0] != ' '
    ensures CollapseSpaces(t, inRun) == t
    decreases |t|
  {
    if t != [] {
      LettersOnlyCollapsed(t[1..], t[0] == ' ');
      assert t == [t[0]] + t[1..];
    }
  }

  /** The offset of `Trim(x)` inside `x`. */
  function TrimOffset(x: string): (k: nat)
    ensures k + |Trim(x)| <= |x| && Trim(x) == x[k..k + |Trim(x)|]
  {
    var u := TrimStart(x);
    assert TrimEnd(u) == u[..|TrimEnd(u)|];
    |x| - |u|
  }

  /** Trimming a string of allowed characters and single spaces leaves a canonical name. */
  lemma TrimNormalized(t: string)
    requires forall i :: 0 <= i < |t| ==> Allowed(t[i]) || t[i] == ' '
    requires forall i :: 0 <= i < |t| - 1 ==> t[i] == ' ' ==> t[i + 1] != ' '
    ensures Normalized(Trim(t))
  {
    var k := TrimOffset(t);
    var w := Trim(t);
    assert forall i :: 0 <= i < |w| ==> w[i] == t[k + i];
  }

  lemma TrimKeeps(t: string)
    requires t == [] || (!IsSpace(t[0]) && !IsSpace(t[|t| - 1]))
    ensures TrimStart(t) == t && TrimEnd(t) == t && Trim(t) == t
  {
  }

  // ---------------------------------------------------------------------
  // Idempotence
  // ---------------------------------------------------------------------

  lemma NoParenIn(t: string, digit: bool)
    requires forall i :: 0 <= i < |t| ==> t[i] != '('
    ensures CutTail(t, digit) == t
  {
    forall j | 0 <= j < |t|
      ensures !ParenTail(t[j..], digit)
    {
      var x := t[j..];
      var k := TrimOffset(x);
      if |Trim(x)| > 0 {
        assert Trim(x)[0] == t[j + k];
      }
    }
  }

  lemma LowerKeeps(t: string)
    requires forall i :: 0 <= i < |t| ==> Allowed(t[i]) || t[i] == ' '
    ensures Lower(t) == t
  {
  }

  lemma {:induction false} FoldKeeps(t: string)
    requires forall i :: 0 <= i < |t| ==> Allowed(t[i]) || t[i] == ' '
    ensures Fold(t) == t
    decreases |t|
  {
    if t != [] {
      FoldKeeps(t[1..]);
      assert t == [t[0]] + t[1..];
    }
  }

  lemma {:induction false} LettersOnlyKeeps(t: string, inRun: bool)
    requires forall i :: 0 <= i < |t| ==> Allowed(t[i]) || t[i] == ' '
    requires forall i :: 0 <= i < |t| - 1 ==> t[i] == ' ' ==> t[i + 1] != ' '
    requires inRun && t != [] ==> t[0] != ' '
    ensures LettersOnly(t, inRun) == t
    decreases |t|
  {
    if t != [] {
      LettersOnlyKeeps(t[1..], t[0] == ' ');
      assert t == [t[0]] + t[1..];
    }
  }

  /** `normalizeName` leaves a canonical name unchanged, so it is idempotent. */
  lemma NormalizeFixes(t: string)
    requires Normalized(t)
    ensures NormalizeName(t) == t
  {
    NoParenIn(t, false);
    LowerKeeps(t);
    NormalizeVia(t, t);
  }

  lemma NormalizeIdempotent(name: string)
    ensures NormalizeName(NormalizeName(name)) == NormalizeName(name)
  {
    NormalizeFixes(NormalizeName(name));
  }

  lemma ExampleTailTrim(s: string)
    requires s == "Vanessa (OB#102)"
    ensures Trim(s[7..]) == s[8..]
  {
    assert s[7..][1..] == s[8..];
    TrimOneSpace(s[7..]);
  }

  /** A single leading space is all that trimming removes from text with non-space ends. */
  lemma TrimOneSpace(x: string)
    requires |x| >= 2 && IsSpace(x[0]) && !IsSpace(x[1]) && !IsSpace(x[|x| - 1])
    ensures Trim(x) == x[1..]
  {
    assert TrimStart(x[1..]) == x[1..];
    assert TrimStart(x) == x[1..];
    TrimKeeps(x[1..]);
  }

  lemma ExampleEnclosed(s: string)
    requires s == "Vanessa (OB#102)"
    ensures Enclosed(s[8..]) && HasDigit(s[8..])
  {
    assert IsDigit(s[8..][4]);
  }

  lemma ExampleTail(s: string)
    requires s == "Vanessa (OB#102)"
    ensures ParenTail(s[7..], false) && ParenTail(s[7..], true)
  {
    ExampleTailTrim(s);
    ExampleEnclosed(s);
  }

  lemma ExampleNoEarlierTail(j: nat)
    requires j < 7
    ensures !ParenTail("Vanessa (OB#102)"[j..], false)
  {
    var s := "Vanessa (OB#102)";
    TrimKeeps(s[j..]);
    assert s[j..][0] != '(';
  }

  /** The cut is at `k` when a tail starts at `k` and at no earlier position. */
  lemma CutAt(s: string, digit: bool, k: nat)
    requires k < |s| && ParenTail(s[k..], digit)
    requires forall j :: 0 <= j < k ==> !ParenTail(s[j..], digit)
    ensures CutTail(s, digit) == s[..k]
  {
  }

  lemma CutExample(s: string)
    requires s == "Vanessa (OB#102)"
    ensures CutTail(s, false) == s[..7]
  {
    ExampleTail(s);
    forall j | 0 <= j < 7
      ensures !ParenTail(s[j..], false)
    {
      ExampleNoEarlierTail(j);
    }
    CutAt(s, false, 7);
  }

  /** Once the tail is cut and the case lowered, a canonical string is the key. */
  /** The steps of `normalizeName` after lower-casing keep a canonical name. */
  lemma PipelineKeeps(t: string)
    requires Normalized(t)
    ensures Trim(CollapseSpaces(LettersOnly(Fold(t), false), false)) == t
  {
    FoldKeeps(t);
    LettersOnlyKeeps(t, false);
    LettersOnlyCollapsed(t, false);
    TrimKeeps(t);
  }

  lemma NormalizeVia(name: string, t: string)
    requires Lower(CutTail(name, false)) == t && Normalized(t)
    ensures NormalizeName(name) == t
  {
    PipelineKeeps(t);
  }

  lemma LowerExample(s: string, v: string)
    requires s == "Vanessa (OB#102)" && v == "vanessa"
    ensures Lower(s[..7]) == v && Normalized(v)
  {
  }

  /** An account suffix in parentheses does not change the key: "Vanessa (OB#102)" and "vanessa" meet. */
  lemma NormalizeExample(s: string, v: string)
    requires s == "Vanessa (OB#102)" && v == "vanessa"
    ensures NormalizeName(s) == v
    ensures NormalizeName(v) == v
  {
    CutExample(s);
    LowerExample(s, v);
    NormalizeVia(s, v);
    NormalizeFixes(v);
  }

  // ---------------------------------------------------------------------
  // normalizeWorkKey
  // ---------------------------------------------------------------------

  /** The first position at or after `i` that does not hold an ASCII letter. */
  function LetterRunEnd(c: string, i: nat): (j: nat)
    requires i <= |c|
    ensures i <= j <= |c|
    ensures forall k :: i <= k < j ==> IsAsciiLetter(c[k])
    ensures j < |c| ==> !IsAsciiLetter(c[j])
    decreases |c| - i
  {
    if i == |c| || !IsAsciiLetter(c[i]) then i else LetterRunEnd(c, i + 1)
  }

  /**
   * `/^ob[a-z]*#?\d+/i.test(c)`: `ob` in either case, letters, an optional
   * `#` and a digit. Backtracking cannot help `[a-z]*`, since a letter is
   * neither `#` nor a digit, so the letters run as far as they go.
   */
  predicate AccountLike(c: string)
  {
    |c| >= 2 && (c[0] == 'o' || c[0] == 'O') && (c[1] == 'b' || c[1] == 'B')
    && var j := LetterRunEnd(c, 2);
       (j < |c| && IsDigit(c[j])) || (j + 1 < |c| && c[j] == '#' && IsDigit(c[j + 1]))
  }

  /**
   * `normalizeWorkKey`: blank stays blank; an account identifier keeps all
   * its characters but white space, lower-cased; any other name gets the
   * `normalizeName` key of its trimmed form.
   */
  function NormalizeWorkKey(name: string): (r: string)
    ensures Trim(name) == [] ==> r == []
    ensures var c := RemoveSpaces(Trim(name));
      AccountLike(c) ==>
        AccountLike(r) && NoSpaces(r) && |r| == |c| && forall i :: 0 <= i < |c| ==> r[i] == LowerChar(c[i])
    ensures !AccountLike(RemoveSpaces(Trim(name))) ==> Normalized(r)
  {
    var raw := Trim(name);
    if raw == [] then []
    else
      var compact := RemoveSpaces(raw);
      if AccountLike(compact) then
        LowerAccount(compact);
        Lower(compact)
      else NormalizeName(raw)
  }

  lemma LowerAccount(c: string)
    requires NoSpaces(c)
    ensures NoSpaces(Lower(c))
    ensures AccountLike(c) <==> AccountLike(Lower(c))
  {
    var l := Lower(c);
    if |c| >= 2 {
      LetterRunLower(c, 2);
    }
  }

  lemma {:induction false} LetterRunLower(c: string, i: nat)
    requires i <= |c|
    ensures LetterRunEnd(Lower(c), i) == LetterRunEnd(c, i)
    decreases |c| - i
  {
    if i < |c| && IsAsciiLetter(c[i]) {
      LetterRunLower(c, i + 1);
    }
  }

  lemma LowerTwice(c: string)
    ensures Lower(Lower(c)) == Lower(c)
  {
  }

  lemma {:induction false} RemoveSpacesAllowed(t: string)
    requires forall i :: 0 <= i < |t| ==> Allowed(t[i]) || t[i] == ' '
    ensures forall i :: 0 <= i < |RemoveSpaces(t)| ==> Allowed(RemoveSpaces(t)[i])
    decreases |t|
  {
    if t != [] {
      RemoveSpacesAllowed(t[1..]);
    }
  }

  /** A canonical name is never taken for an account identifier: it holds no digit. */
  lemma NameNotAccount(t: string)
    requires Normalized(t)
    ensures !AccountLike(RemoveSpaces(t))
  {
    RemoveSpacesAllowed(t);
    var c := RemoveSpaces(t);
    if |c| >= 2 {
      var j := LetterRunEnd(c, 2);
      if j < |c| {
        assert Allowed(c[j]);
      }
      if j + 1 < |c| {
        assert Allowed(c[j + 1]);
      }
    }
  }

  /** Work keys are fixed points: keying a key gives it back. */
  lemma WorkKeyIdempotent(name: string)
    ensures NormalizeWorkKey(NormalizeWorkKey(name)) == NormalizeWorkKey(name)
  {
    var r := NormalizeWorkKey(name);
    var raw := Trim(name);
    if raw != [] {
      var c := RemoveSpaces(raw);
      if AccountLike(c) {
        TrimKeeps(r);
        assert RemoveSpaces(r) == r;
        LowerTwice(c);
      } else {
        TrimKeeps(r);
        NameNotAccount(r);
        NormalizeFixes(r);
      }
    }
  }

  // ---------------------------------------------------------------------
  // toDisplayName
  // ---------------------------------------------------------------------

  lemma TailNeedsParen(t: string, digit: bool)
    requires ParenTail(t, true)
    ensures ParenTail(t, digit)
  {
  }

  /** What `toDisplayName` computes from the trimmed name: cut digit-bearing tails while one remains. */
  function DisplayNameOf(v: string): (r: string)
    ensures |r| <= |v|
    decreases |v|
  {
    if HasTail(v, true) then DisplayNameOf(Trim(CutTail(v, true))) else v
  }

  predicate Trimmed(v: string)
  {
    v == [] || (!IsSpace(v[0]) && !IsSpace(v[|v| - 1]))
  }

  /** The loop state of `toDisplayName` over the trimmed name `t`. */
  ghost predicate DisplayInv(v: string, t: string)
  {
    |v| <= |t| && v == t[..|v|] && Trimmed(v) && DisplayNameOf(v) == DisplayNameOf(t)
  }

  lemma TrimStartNoop(s: string)
    requires s == [] || !IsSpace(s[0])
    ensures TrimStart(s) == s
  {
  }

  lemma PrefixTrans(a: string, b: string, c: string)
    requires |a| <= |b| <= |c| && a == b[..|a|] && b == c[..|b|]
    ensures a == c[..|a|]
  {
  }

  lemma DisplayStep(v: string, t: string)
    requires DisplayInv(v, t) && HasTail(v, true)
    ensures DisplayInv(Trim(CutTail(v, true)), t) && |Trim(CutTail(v, true))| < |v|
  {
    var cut := CutTail(v, true);
    if cut != [] {
      assert cut[0] == v[0];
    }
    TrimStartNoop(cut);
    var w := TrimEnd(cut);
    PrefixTrans(cut, v, t);
    PrefixTrans(w, cut, t);
  }

  /**
   * `toDisplayName`: trims, then removes a trailing parenthesised part that
   * holds a digit (an account suffix), again and again. What is left is a
   * trimmed prefix of the trimmed name with no such suffix; a name without
   * one is only trimmed.
   */
  method ToDisplayName(name: string) returns (value: string)
    ensures value == DisplayNameOf(Trim(name))
    ensures |value| <= |Trim(name)| && value == Trim(name)[..|value|]
    ensures Trimmed(value) && !HasTail(value, true)
    ensures !HasTail(Trim(name), true) ==> value == Trim(name)
  {
    value := Trim(name);
    if value == [] {
      return;
    }
    while HasTail(value, true)
      invariant DisplayInv(value, Trim(name))
      decreases |value|
    {
      DisplayStep(value, Trim(name));
      value := Trim(CutTail(value, true));
    }
  }

  lemma ExampleCutDigit(s: string)
    requires s == "Vanessa (OB#102)"
    ensures CutTail(s, true) == s[..7] && HasTail(s, true)
  {
    ExampleTail(s);
    forall j | 0 <= j < 7
      ensures !ParenTail(s[j..], true)
    {
      ExampleNoEarlierTail(j);
    }
    CutAt(s, true, 7);
  }

  /** The example name is already trimmed, so `toDisplayName` works on it as it is. */
  lemma ExampleTrimmed(s: string)
    requires s == "Vanessa (OB#102)"
    ensures Trim(s) == s
  {
    TrimKeeps(s);
  }

  lemma ExampleHead(s: string)
    requires s == "Vanessa (OB#102)"
    ensures Trim(s[..7]) == s[..7]
    ensures forall i :: 0 <= i < 7 ==> s[..7][i] != '('
  {
    TrimKeeps(s[..7]);
  }

  /** One cut that leaves a trimmed name without a parenthesis ends `toDisplayName`. */
  lemma DisplayAfterOneCut(s: string, v: string)
    requires HasTail(s, true) && CutTail(s, true) == v && Trim(v) == v
    requires forall i :: 0 <= i < |v| ==> v[i] != '('
    ensures DisplayNameOf(s) == v
  {
    DisplayPlain(v);
  }

  /** A trimmed name without a parenthesis displays as itself. */
  lemma DisplayPlain(v: string)
    requires forall i :: 0 <= i < |v| ==> v[i] != '('
    ensures DisplayNameOf(v) == v
  {
    NoParenIn(v, true);
  }

  /** The account suffix is dropped for display: "Vanessa (OB#102)" shows as "Vanessa". */
  lemma DisplayExample(s: string)
    requires s == "Vanessa (OB#102)"
    ensures DisplayNameOf(s) == s[..7]
  {
    ExampleHead(s);
    ExampleCutDigit(s);
    DisplayAfterOneCut(s, s[..7]);
  }

  // ---------------------------------------------------------------------
  // nameTokens
  // ---------------------------------------------------------------------

  /** A token: a non-empty run of allowed characters. */
  predicate Word(w: string)
  {
    w != [] && forall i :: 0 <= i < |w| ==> Allowed(w[i])
  }

  /** `.map((t) => t.trim())` */
  function TrimAll(parts: seq<string>): (r: seq<string>)
    ensures |r| == |parts|
  {
    seq(|parts|, k requires 0 <= k < |parts| => Trim(parts[k]))
  }

  /** `.filter(Boolean)` on strings: keeps the non-empty ones, in order. */
  function NonEmpty(parts: seq<string>): (r: seq<string>)
    ensures forall k :: 0 <= k < |r| ==> r[k] != []
    ensures (forall k :: 0 <= k < |parts| ==> parts[k] != []) ==> r == parts
  {
    if parts == [] then []
    else if parts[0] == [] then NonEmpty(parts[1..])
    else [parts[0]] + NonEmpty(parts[1..])
  }

  lemma {:induction false} SplitJoin(s: string, c: char)
    ensures Join(Split(s, c), [c]) == s
    decreases |s|
  {
    var i := IndexOf(s, c);
    if i < |s| {
      SplitJoin(s[i + 1..], c);
      var parts := Split(s, c);
      var rest := Split(s[i + 1..], c);
      assert parts == [s[..i]] + rest;
      assert parts[1..] == rest;
      assert Join(parts, [c]) == s[..i] + [c] + Join(rest, [c]);
      assert s == s[..i] + [c] + s[i + 1..];
    } else {
      assert Split(s, c) == [s];
    }
  }

  /** Splitting a non-empty canonical name at its spaces gives words only. */
  lemma {:induction false} SplitWords(t: string)
    requires Normalized(t) && t != []
    ensures forall k :: 0 <= k < |Split(t, ' ')| ==> Word(Split(t, ' ')[k])
    decreases |t|
  {
    var i := IndexOf(t, ' ');
    if i < |t| {
      var rest := t[i + 1..];
      assert rest[0] == t[i + 1];
      SplitWords(rest);
      var parts := Split(t, ' ');
      assert parts == [t[..i]] + Split(rest, ' ');
      forall k | 0 < k < |parts|
        ensures Word(parts[k])
      {
        assert parts[k] == Split(rest, ' ')[k - 1];
      }
    }
  }

  lemma TrimAllWords(parts: seq<string>)
    requires forall k :: 0 <= k < |parts| ==> Word(parts[k])
    ensures TrimAll(parts) == parts
  {
    forall k | 0 <= k < |parts|
      ensures TrimAll(parts)[k] == parts[k]
    {
      TrimKeeps(parts[k]);
    }
  }

  /** The words of a canonical name, joined by spaces, give the name back. */
  lemma {:induction false} WordsOfCanonical(t: string)
    requires Normalized(t)
    ensures var r := NonEmpty(TrimAll(Split(t, ' ')));
      (forall k :: 0 <= k < |r| ==> Word(r[k])) && Join(r, " ") == t
  {
    var parts := Split(t, ' ');
    SplitJoin(t, ' ');
    if t == [] {
      assert parts == [[]];
      assert TrimAll(parts) == [[]];
    } else {
      SplitWords(t);
      TrimAllWords(parts);
    }
  }

  /** `nameTokens`: the words of the canonical name; joined by spaces they give it back. */
  function NameTokens(name: string): (r: seq<string>)
    ensures forall k :: 0 <= k < |r| ==> Word(r[k])
    ensures Join(r, " ") == NormalizeName(name)
  {
    WordsOfCanonical(NormalizeName(name));
    NonEmpty(TrimAll(Split(NormalizeName(name), ' ')))
  }
}
