/**
 * The selector grammar of lib/JSDOMConstants.js as hand-written recognisers,
 * and scanners that reproduce, position by position, what the regular
 * expressions built from those fragments match (including the engine's
 * backtracking and its lazy quantifiers).
 */
module Grammar {
  import opened Values

  /** The two quote characters a bracket value may be wrapped in. */
  const DoubleQuote: char := 34 as char
  const SingleQuote: char := 39 as char
  /** [ and ], { and } */
  const OpenBracket: char := 91 as char
  const CloseBracket: char := 93 as char
  const OpenBrace: char := 123 as char
  const CloseBrace: char := 125 as char

  predicate IsAsciiLetter(c: char) {
    'a' <= c <= 'z' || 'A' <= c <= 'Z'
  }

  /** INVALID_SELECTOR_CHARACTERS: letters, digits, space and - { } [ ] = ~ < > ! $ ? ' " * */
  predicate IsInvalidSelectorChar(c: char) {
    IsAsciiLetter(c) || IsDigit(c) || c in " -{}[]=~<>!$?'\"*"
  }

  /** WILDCARDS */
  predicate IsWildcardChar(c: char) {
    c == '*' || c == '>' || c == '<'
  }

  /** The first character of VARIABLES. */
  predicate IsVarStart(c: char) {
    IsAsciiLetter(c) || c == '$' || c == '_'
  }

  /** The later characters of VARIABLES. */
  predicate IsVarChar(c: char) {
    IsAsciiLetter(c) || IsDigit(c) || c in "$_.:"
  }

  /** VARIABLES, matched against a whole string. */
  predicate IsVariable(s: string) {
    |s| >= 1 && IsVarStart(s[0]) && forall i :: 1 <= i < |s| ==> IsVarChar(s[i])
  }

  /** TERM_FIRST_CHAR */
  predicate IsTermStart(c: char) {
    IsAsciiLetter(c) || c == '_' || c == '$'
  }

  /** The later characters of a bare TERMS word. */
  predicate IsTermChar(c: char) {
    IsAsciiLetter(c) || IsDigit(c) || c in "$_.:-"
  }

  /** \w : - (the bare-word characters of lib/ElementIndexer.js's TERMS) */
  predicate IsWordTermChar(c: char) {
    IsAsciiLetter(c) || IsDigit(c) || c in "_:-"
  }

  /** Which revision's TERMS fragment a scanner follows. */
  datatype TermSyntax = LeadingLetter | WordChars

  predicate IsBareTerm(syntax: TermSyntax, s: string) {
    |s| >= 1 &&
    if syntax.LeadingLetter? then IsTermStart(s[0]) && forall i :: 1 <= i < |s| ==> IsTermChar(s[i])
    else forall i :: 0 <= i < |s| ==> IsWordTermChar(s[i])
  }

  predicate NoLineTerminator(s: string) {
    forall i :: 0 <= i < |s| ==> !IsLineTerminator(s[i])
  }

  /** TERMS, matched against a whole string: a bare word, or { then one or more characters then }. */
  predicate IsTerm(syntax: TermSyntax, s: string) {
    IsBareTerm(syntax, s) ||
    (|s| >= 3 && s[0] == OpenBrace && s[|s| - 1] == CloseBrace && NoLineTerminator(s[1..|s| - 1]))
  }

  /** The operator characters of one OPERATORS alternative, in the order the alternation tries them. */
  const OperatorCores: seq<string> := ["=", "~", "=", "!", ">", "<", ">=", "<=", "!=", "!~"]

  predicate AllSpaces(s: string) {
    forall i :: 0 <= i < |s| ==> s[i] == ' '
  }

  /** Every operator core is one or two of the characters = ~ ! < >. */
  lemma CoreChars()
    ensures forall c :: 0 <= c < |OperatorCores| ==>
      1 <= |OperatorCores[c]| <= 2 && forall k :: 0 <= k < |OperatorCores[c]| ==> OperatorCores[c][k] in "=~!<>"
  {
  }

  /** s is spaces up to i, the core OperatorCores[c] from i to j, then spaces. */
  predicate OperatorShape(s: string, i: nat, j: nat, c: nat) {
    i <= j <= |s| && c < |OperatorCores| && AllSpaces(s[..i]) && AllSpaces(s[j..]) && s[i..j] == OperatorCores[c]
  }

  /** OPERATORS, matched against a whole string: spaces, one operator, spaces. */
  predicate IsOperator(s: string) {
    exists i: nat, j: nat, c: nat :: i <= j <= |s| && c < |OperatorCores| && OperatorShape(s, i, j, c)
  }

  /** ` *?= *` and ` *?! *` are a lazy space run before = or !: no operator contains a question mark. */
  lemma OperatorHasNoQuestionMark(s: string, k: int)
    requires IsOperator(s) && 0 <= k < |s|
    ensures s[k] != '?'
  {
    var i: nat, j: nat, c: nat :| i <= j <= |s| && c < |OperatorCores| && OperatorShape(s, i, j, c);
    CoreChars();
    if k < i {
      assert s[..i][k] == s[k];
    } else if k >= j {
      assert s[j..][k - j] == s[k];
    } else {
      assert s[i..j][k - i] == s[k];
    }
  }

  /** A bare ! is an operator (the ` *?! *` alternative). */
  lemma BangIsOperator()
    ensures IsOperator("!") && IsOperator(" ! ")
  {
    assert OperatorShape("!", 0, 1, 3);
    assert (" ! ")[..1] == " " && (" ! ")[1..2] == "!" && (" ! ")[2..] == " ";
    assert OperatorShape(" ! ", 1, 2, 3);
  }

  /** s is dashes up to m, digits from m to d, then nothing or a dot and digits to the end. */
  predicate NumberShape(s: string, m: nat, d: nat) {
    m < d <= |s| && (forall i :: 0 <= i < m ==> s[i] == '-') && (forall i :: m <= i < d ==> IsDigit(s[i])) &&
    (d == |s| || (s[d] == '.' && d + 1 < |s| && forall i :: d + 1 <= i < |s| ==> IsDigit(s[i])))
  }

  /** -*\d+(?:\.\d+)?, matched against a whole string. */
  predicate IsNumberLiteral(s: string) {
    exists m: nat, d: nat :: m < d <= |s| && NumberShape(s, m, d)
  }

  /** VALUES, matched against a whole string. */
  predicate IsValue(s: string) {
    (|s| >= 2 && s[0] == DoubleQuote && s[|s| - 1] == DoubleQuote) ||
    (|s| >= 2 && s[0] == SingleQuote && s[|s| - 1] == SingleQuote) ||
    IsNumberLiteral(s) || s == "true" || s == "false" || s == "null"
  }

  // ---------------------------------------------------------------------
  // Position-by-position scanners.
  // ---------------------------------------------------------------------

  /** t[j..e] is all spaces. */
  predicate SpacesBetween(t: string, j: nat, e: nat)
    requires j <= e <= |t|
  {
    AllSpaces(t[j..e])
  }

  /** The end of the run of spaces that starts at j. */
  function SpacesEnd(t: string, j: nat): (e: nat)
    requires j <= |t|
    ensures j <= e <= |t| && SpacesBetween(t, j, e) && (e < |t| ==> t[e] != ' ')
    decreases |t| - j
  {
    if j < |t| && t[j] == ' ' then SpacesEnd(t, j + 1) else j
  }

  /** The end of the run of variable characters that starts at j. */
  function VarCharsEnd(t: string, j: nat): (e: nat)
    requires j <= |t|
    ensures j <= e <= |t| && (forall i :: j <= i < e ==> IsVarChar(t[i])) && (e < |t| ==> !IsVarChar(t[e]))
    decreases |t| - j
  {
    if j < |t| && IsVarChar(t[j]) then VarCharsEnd(t, j + 1) else j
  }

  function DigitsEnd(t: string, j: nat): (e: nat)
    requires j <= |t|
    ensures j <= e <= |t| && (forall i :: j <= i < e ==> IsDigit(t[i])) && (e < |t| ==> !IsDigit(t[e]))
    decreases |t| - j
  {
    if j < |t| && IsDigit(t[j]) then DigitsEnd(t, j + 1) else j
  }

  function DashesEnd(t: string, j: nat): (e: nat)
    requires j <= |t|
    ensures j <= e <= |t| && (forall i :: j <= i < e ==> t[i] == '-') && (e < |t| ==> t[e] != '-')
    decreases |t| - j
  {
    if j < |t| && t[j] == '-' then DashesEnd(t, j + 1) else j
  }

  /** The first q >= j with t[q] == quote and t[q+1] == CloseBracket (a lazy quoted value followed by the closing bracket). */
  function QuoteThenClose(t: string, quote: char, j: nat): (r: Option<nat>)
    requires j <= |t|
    ensures r.Some? ==> j <= r.value && r.value + 1 < |t| && t[r.value] == quote && t[r.value + 1] == CloseBracket
    ensures r.Some? ==> forall q :: j <= q < r.value ==> !(t[q] == quote && t[q + 1] == CloseBracket)
    ensures r.None? ==> forall q :: j <= q < |t| - 1 ==> !(t[q] == quote && t[q + 1] == CloseBracket)
    decreases |t| - j
  {
    if j + 1 >= |t| then None
    else if t[j] == quote && t[j + 1] == CloseBracket then Some(j)
    else QuoteThenClose(t, quote, j + 1)
  }

  /** Dashes from m to p, digits to d, then nothing or a dot and digits to f: t[m..f] is a number literal. */
  lemma NumberIntro(t: string, m: nat, p: nat, d: nat, f: nat)
    requires m <= p < d <= f <= |t| && (forall i :: m <= i < p ==> t[i] == '-') && (forall i :: p <= i < d ==> IsDigit(t[i]))
    requires d == f || (t[d] == '.' && d + 1 < f && forall i :: d + 1 <= i < f ==> IsDigit(t[i]))
    ensures NumberBetween(t, m, f)
  {
    var s := t[m..f];
    assert forall i :: 0 <= i < f - m ==> s[i] == t[m + i];
    assert NumberShape(s, p - m, d - m);
  }

  /** t[a..b] is a -*\d+(?:\.\d+)? match. */
  predicate NumberBetween(t: string, a: nat, b: nat)
    requires a <= b <= |t|
  {
    IsNumberLiteral(t[a..b])
  }

  /** t[a..b] is a VALUES match. */
  predicate ValueBetween(t: string, a: nat, b: nat)
    requires a <= b <= |t|
  {
    IsValue(t[a..b])
  }

  /** t[a..b] is an OPERATORS match. */
  predicate OperatorBetween(t: string, a: nat, b: nat)
    requires a <= b <= |t|
  {
    IsOperator(t[a..b])
  }

  /** -*\d+(?:\.\d+)? followed by ] at m: where the ] is. */
  function NumberThenClose(t: string, m: nat): (r: Option<nat>)
    requires m <= |t|
    ensures r.Some? ==> m < r.value < |t| && t[r.value] == CloseBracket && NumberBetween(t, m, r.value)
  {
    var p := DashesEnd(t, m);
    var d := DigitsEnd(t, p);
    if d == p then None
    else if d < |t| && t[d] == CloseBracket then
      NumberIntro(t, m, p, d, d);
      Some(d)
    else if d + 1 < |t| && t[d] == '.' && IsDigit(t[d + 1]) then
      var f := DigitsEnd(t, d + 1);
      if f < |t| && t[f] == CloseBracket then
        NumberIntro(t, m, p, d, f);
        Some(f)
      else None
    else None
  }

  /** A quoted value (lazy up to the first quote followed by ]) at m: where the ] is. */
  function QuotedThenClose(t: string, m: nat): (r: Option<nat>)
    requires m < |t| && (t[m] == DoubleQuote || t[m] == SingleQuote)
    ensures r.Some? ==> m + 1 < r.value < |t| && t[r.value] == CloseBracket && t[r.value - 1] == t[m]
  {
    var q := QuoteThenClose(t, t[m], m + 1);
    if q.Some? then Some(q.value + 1) else None
  }

  /** true, false or null followed by ] at m: where the ] is. */
  function KeywordThenClose(t: string, m: nat): (r: Option<nat>)
    requires m <= |t|
    ensures r.Some? ==> m < r.value < |t| && t[r.value] == CloseBracket
    ensures r.Some? ==> (r.value == m + 4 && (t[m..m + 4] == "true" || t[m..m + 4] == "null")) || (r.value == m + 5 && t[m..m + 5] == "false")
  {
    if m + 5 <= |t| && t[m..m + 4] == "true" && t[m + 4] == CloseBracket then Some(m + 4)
    else if m + 6 <= |t| && t[m..m + 5] == "false" && t[m + 5] == CloseBracket then Some(m + 5)
    else if m + 5 <= |t| && t[m..m + 4] == "null" && t[m + 4] == CloseBracket then Some(m + 4)
    else None
  }

  /**
   * VALUES followed by \] at position m: the index of the closing bracket,
   * or None when no alternative can be followed by ].
   */
  function ValueThenClose(t: string, m: nat): (r: Option<nat>)
    requires m <= |t|
    ensures r.Some? ==> m < r.value < |t| && t[r.value] == CloseBracket && ValueBetween(t, m, r.value)
  {
    if m >= |t| then None
    else if t[m] == DoubleQuote || t[m] == SingleQuote then
      var r := QuotedThenClose(t, m);
      if r.Some? then
        assert t[m..r.value][0] == t[m] && t[m..r.value][r.value - m - 1] == t[r.value - 1];
        r
      else r
    else if IsDigit(t[m]) || t[m] == '-' then NumberThenClose(t, m)
    else KeywordThenClose(t, m)
  }

  /** The three groups of one BRACKET_DISSECTOR match, and where the match ends. */
  datatype Bracket = Bracket(variable: string, operator: string, value: string, end: nat)

  /** The OPERATORS alternative OperatorCores[a] at j, followed by VALUES and ]: where the value starts and the ] is. */
  function OperatorAlternative(t: string, j: nat, a: nat): (r: Option<(nat, nat)>)
    requires j <= |t| && a < |OperatorCores|
    ensures r.Some? ==> (j <= r.value.0 < r.value.1 < |t| && t[r.value.1] == CloseBracket &&
      OperatorBetween(t, j, r.value.0) && ValueBetween(t, r.value.0, r.value.1))
  {
    var k := SpacesEnd(t, j);
    var c := k + |OperatorCores[a]|;
    if c <= |t| && t[k..c] == OperatorCores[a] then ValueAfterOperator(t, j, k, c, a) else None
  }

  /** The operator core OperatorCores[a] occupies t[k..c] after the spaces t[j..k]: the spaces, VALUES and ] after it. */
  function ValueAfterOperator(t: string, j: nat, k: nat, c: nat, a: nat): (r: Option<(nat, nat)>)
    requires j <= k <= c <= |t| && SpacesBetween(t, j, k) && a < |OperatorCores| && t[k..c] == OperatorCores[a]
    ensures r.Some? ==> (j <= r.value.0 < r.value.1 < |t| && t[r.value.1] == CloseBracket &&
      OperatorBetween(t, j, r.value.0) && ValueBetween(t, r.value.0, r.value.1))
  {
    var m := SpacesEnd(t, c);
    var v := ValueThenClose(t, m);
    if v.Some? then
      OperatorAt(t, j, k, c, m, a);
      Some((m, v.value))
    else None
  }

  /** Tries the OPERATORS alternatives from index a of OperatorCores onward, in the order of the alternation. */
  function TryOperators(t: string, j: nat, a: nat): (r: Option<(nat, nat)>)
    requires j <= |t| && a <= |OperatorCores|
    ensures r.Some? ==> (j <= r.value.0 < r.value.1 < |t| && t[r.value.1] == CloseBracket &&
      OperatorBetween(t, j, r.value.0) && ValueBetween(t, r.value.0, r.value.1))
    decreases |OperatorCores| - a
  {
    if a == |OperatorCores| then None
    else
      var r := OperatorAlternative(t, j, a);
      if r.Some? then r else TryOperators(t, j, a + 1)
  }

  /** Spaces, OperatorCores[a], spaces: t[j..m] is an OPERATORS match. */
  lemma OperatorAt(t: string, j: nat, k: nat, c: nat, m: nat, a: nat)
    requires j <= k <= c <= m <= |t| && AllSpaces(t[j..k]) && AllSpaces(t[c..m])
    requires a < |OperatorCores| && t[k..c] == OperatorCores[a]
    ensures IsOperator(t[j..m])
  {
    OperatorSlices(t, j, k, c, m);
    assert OperatorShape(t[j..m], k - j, c - j, a);
  }

  lemma OperatorSlices(t: string, j: nat, k: nat, c: nat, m: nat)
    requires j <= k <= c <= m <= |t| && AllSpaces(t[j..k]) && AllSpaces(t[c..m])
    ensures t[j..m][..k - j] == t[j..k] && t[j..m][c - j..] == t[c..m] && t[j..m][k - j..c - j] == t[k..c]
    ensures AllSpaces(t[j..m][..k - j]) && AllSpaces(t[j..m][c - j..])
  {
    var u := t[j..m];
    assert u[..k - j] == t[j..k];
    assert |u[c - j..]| == m - c;
    forall q | 0 <= q < m - c ensures u[c - j..][q] == t[c..m][q] {
      assert u[c - j..][q] == u[c - j + q] == t[c + q];
    }
    assert u[c - j..] == t[c..m];
    assert |u[k - j..c - j]| == c - k;
    forall q | 0 <= q < c - k ensures u[k - j..c - j][q] == t[k..c][q] {
      assert u[k - j..c - j][q] == u[k - j + q] == t[k + q];
    }
    assert u[k - j..c - j] == t[k..c];
  }

  lemma BracketSlices(t: string, i: nat, j: nat, m: nat, close: nat)
    requires i < j <= m < close < |t| && t[i] == OpenBracket && t[close] == CloseBracket
    ensures t[i..close + 1] == "[" + t[i + 1..j] + t[j..m] + t[m..close] + "]"
  {
    var a, b, c := t[i + 1..j], t[j..m], t[m..close];
    SliceSplit(t, i, i + 1, close + 1);
    SliceSplit(t, i + 1, j, close + 1);
    SliceSplit(t, j, m, close + 1);
    SliceSplit(t, m, close, close + 1);
    assert t[i..i + 1] == "[" && t[close..close + 1] == "]";
    assert t[i..close + 1] == "[" + (a + (b + (c + "]"))) == "[" + a + b + c + "]";
  }

  lemma SliceSplit(t: string, a: nat, b: nat, c: nat)
    requires a <= b <= c <= |t|
    ensures t[a..c] == t[a..b] + t[b..c]
  {
    assert t[a..c] == t[a..b] + t[b..c];
  }

  /** b is a BRACKET_DISSECTOR match starting at i: [, a VARIABLES, an OPERATORS and a VALUES match, then ], ending at b.end. */
  predicate IsBracketMatch(t: string, i: nat, b: Bracket)
    requires i <= b.end <= |t|
  {
    t[i..b.end] == "[" + b.variable + b.operator + b.value + "]" &&
    IsVariable(b.variable) && IsOperator(b.operator) && IsValue(b.value)
  }

  /** BRACKET_DISSECTOR (\[(VARIABLES)(OPERATORS)(VALUES)\]) anchored at position i. */
  function MatchBracketAt(t: string, i: nat): (r: Option<Bracket>)
    requires i <= |t|
    ensures r.Some? ==> i < r.value.end <= |t| && IsBracketMatch(t, i, r.value)
  {
    if i + 1 < |t| && t[i] == OpenBracket && IsVarStart(t[i + 1]) then
      var j := VarCharsEnd(t, i + 2);
      var ov := TryOperators(t, j, 0);
      if ov.Some? then
        var (m, close) := ov.value;
        var b := Bracket(t[i + 1..j], t[j..m], t[m..close], close + 1);
        BracketSlices(t, i, j, m, close);
        assert IsVariable(b.variable) by {
          forall k | 1 <= k < |b.variable| ensures IsVarChar(b.variable[k]) { assert b.variable[k] == t[i + 1 + k]; }
        }
        Some(b)
      else None
    else None
  }

  /** The positions of the groups of a bracket match. */
  lemma BracketParts(t: string, i: nat, b: Bracket)
    requires i <= b.end <= |t| && IsBracketMatch(t, i, b)
    ensures i + 2 + |b.variable| + |b.operator| + |b.value| == b.end
    ensures t[i] == OpenBracket && t[b.end - 1] == CloseBracket
    ensures t[i + 1..i + 1 + |b.variable|] == b.variable
    ensures t[i + 1 + |b.variable|..i + 1 + |b.variable| + |b.operator|] == b.operator
    ensures t[i + 1 + |b.variable| + |b.operator|..b.end - 1] == b.value
  {
    var v, o, w := b.variable, b.operator, b.value;
    var s := t[i..b.end];
    var j := 1 + |v|;
    var m := j + |o|;
    assert s == "[" + v + o + w + "]";
    assert s[0] == t[i] && s[|s| - 1] == t[b.end - 1];
    assert t[i + 1..i + j] == v by {
      forall k | 0 <= k < |v| ensures t[i + 1..i + j][k] == v[k] { assert s[1 + k] == v[k]; }
    }
    assert t[i + j..i + m] == o by {
      forall k | 0 <= k < |o| ensures t[i + j..i + m][k] == o[k] { assert s[j + k] == o[k]; }
    }
    assert t[i + m..b.end - 1] == w by {
      forall k | 0 <= k < |w| ensures t[i + m..b.end - 1][k] == w[k] { assert s[m + k] == w[k]; }
    }
  }

  /** No OPERATORS match begins with a VARIABLES character, and none is empty. */
  lemma OperatorStart(o: string)
    requires IsOperator(o)
    ensures |o| >= 1 && !IsVarChar(o[0])
  {
    var a: nat, z: nat, c: nat :| a <= z <= |o| && c < |OperatorCores| && OperatorShape(o, a, z, c);
    CoreChars();
    if a > 0 {
      assert o[..a][0] == o[0];
    } else {
      assert o[a..z][0] == o[0];
    }
  }

  /** Every VALUES match is non-empty and begins with a quote, a dash, a digit or a keyword letter. */
  lemma ValueStart(w: string)
    requires IsValue(w)
    ensures |w| >= 1 && w[0] != ' '
  {
    if IsNumberLiteral(w) {
      var m: nat, d: nat :| m < d <= |w| && NumberShape(w, m, d);
    }
  }

  /** The run of spaces from j ends at the first non-space k. */
  lemma {:induction false} SpacesEndAt(t: string, j: nat, k: nat)
    requires j <= k <= |t| && (forall i :: j <= i < k ==> t[i] == ' ') && (k < |t| ==> t[k] != ' ')
    ensures SpacesEnd(t, j) == k
    decreases k - j
  {
    if j < k {
      SpacesEndAt(t, j + 1, k);
    }
  }

  /** The run of variable characters from j ends at the first other character k. */
  lemma {:induction false} VarCharsEndAt(t: string, j: nat, k: nat)
    requires j <= k <= |t| && (forall i :: j <= i < k ==> IsVarChar(t[i])) && (k < |t| ==> !IsVarChar(t[k]))
    ensures VarCharsEnd(t, j) == k
    decreases k - j
  {
    if j < k {
      VarCharsEndAt(t, j + 1, k);
    }
  }

  /** The run of dashes from j ends at the first other character k. */
  lemma {:induction false} DashesEndAt(t: string, j: nat, k: nat)
    requires j <= k <= |t| && (forall i :: j <= i < k ==> t[i] == '-') && (k < |t| ==> t[k] != '-')
    ensures DashesEnd(t, j) == k
    decreases k - j
  {
    if j < k {
      DashesEndAt(t, j + 1, k);
    }
  }

  /** The run of digits from j ends at the first other character k. */
  lemma {:induction false} DigitsEndAt(t: string, j: nat, k: nat)
    requires j <= k <= |t| && (forall i :: j <= i < k ==> IsDigit(t[i])) && (k < |t| ==> !IsDigit(t[k]))
    ensures DigitsEnd(t, j) == k
    decreases k - j
  {
    if j < k {
      DigitsEndAt(t, j + 1, k);
    }
  }

  /** The spaces of SpacesBetween, one position at a time. */
  lemma SpacesAt(t: string, j: nat, k: nat)
    requires j <= k <= |t| && SpacesBetween(t, j, k)
    ensures forall i :: j <= i < k ==> t[i] == ' '
  {
    forall i | j <= i < k ensures t[i] == ' ' {
      assert t[j..k][i - j] == t[i];
    }
  }

  /** Spaces, an operator core, spaces: the OPERATORS match t[j..m] on positions of t. */
  lemma OperatorPositions(t: string, j: nat, m: nat) returns (k0: nat, k1: nat, bi: nat)
    requires j <= m <= |t| && OperatorBetween(t, j, m)
    ensures j <= k0 <= k1 <= m && bi < |OperatorCores|
    ensures SpacesBetween(t, j, k0) && t[k0..k1] == OperatorCores[bi] && SpacesBetween(t, k1, m)
  {
    var o := t[j..m];
    var a: nat, z: nat, c: nat :| a <= z <= |o| && c < |OperatorCores| && OperatorShape(o, a, z, c);
    k0, k1, bi := j + a, j + z, c;
    assert t[j..k0] == o[..a] by {
      forall i | 0 <= i < a ensures t[j..k0][i] == o[..a][i] { assert o[i] == t[j + i]; }
    }
    assert t[k0..k1] == o[a..z] by {
      forall i | 0 <= i < z - a ensures t[k0..k1][i] == o[a..z][i] { assert o[a + i] == t[k0 + i]; }
    }
    assert t[k1..m] == o[z..] by {
      forall i | 0 <= i < m - k1 ensures t[k1..m][i] == o[z..][i] { assert o[z + i] == t[k1 + i]; }
    }
  }

  /** A quote followed by ] at c >= j is found by QuoteThenClose. */
  lemma {:induction false} QuoteThenCloseFinds(t: string, quote: char, j: nat, c: nat)
    requires j <= c && c + 1 < |t| && t[c] == quote && t[c + 1] == CloseBracket
    ensures QuoteThenClose(t, quote, j).Some?
    decreases c - j
  {
    if !(t[j] == quote && t[j + 1] == CloseBracket) {
      QuoteThenCloseFinds(t, quote, j + 1, c);
    }
  }

  /** A VALUES match followed by ] at m is found by ValueThenClose. */
  lemma ValueComplete(t: string, m: nat, c: nat)
    requires m <= c < |t| && ValueBetween(t, m, c) && t[c] == CloseBracket
    ensures ValueThenClose(t, m).Some?
  {
    var w := t[m..c];
    ValueStart(w);
    assert w[0] == t[m];
    if t[m] == DoubleQuote || t[m] == SingleQuote {
      assert w[|w| - 1] == t[c - 1];
      assert |w| >= 2 && w[|w| - 1] == t[m];
      QuoteThenCloseFinds(t, t[m], m + 1, c - 1);
    } else if IsDigit(t[m]) || t[m] == '-' {
      assert IsNumberLiteral(w);
      NumberComplete(t, m, c);
    } else {
      assert w == "true" || w == "false" || w == "null";
      assert t[m..m + |w|] == w;
    }
  }

  /** A number literal t[m..c] on positions of t: dashes to p, digits to e, then nothing or a fraction. */
  lemma NumberPositions(t: string, m: nat, c: nat) returns (p: nat, e: nat)
    requires m <= c <= |t| && NumberBetween(t, m, c)
    ensures m <= p < e <= c
    ensures forall k :: m <= k < p ==> t[k] == '-'
    ensures forall k :: p <= k < e ==> IsDigit(t[k])
    ensures e == c || (t[e] == '.' && e + 1 < c && forall k :: e + 1 <= k < c ==> IsDigit(t[k]))
  {
    var w := t[m..c];
    var n: nat, d: nat :| n < d <= |w| && NumberShape(w, n, d);
    assert forall k :: m <= k < c ==> t[k] == w[k - m];
    p, e := m + n, m + d;
  }

  /** A number literal followed by ] at m is found by NumberThenClose. */
  lemma NumberComplete(t: string, m: nat, c: nat)
    requires m <= c < |t| && NumberBetween(t, m, c) && t[c] == CloseBracket
    ensures NumberThenClose(t, m).Some?
  {
    var p, e := NumberPositions(t, m, c);
    DashesEndAt(t, m, p);
    DigitsEndAt(t, p, e);
    if e < c {
      DigitsEndAt(t, e + 1, c);
    }
    NumberFound(t, m, p, e);
  }

  /** Dashes to p, digits to e, then ] or a fraction and ]: NumberThenClose succeeds. */
  lemma NumberFound(t: string, m: nat, p: nat, e: nat)
    requires m <= p < e < |t| && DashesEnd(t, m) == p && DigitsEnd(t, p) == e
    requires t[e] == CloseBracket || (t[e] == '.' && e + 1 < |t| && IsDigit(t[e + 1]) &&
      DigitsEnd(t, e + 1) < |t| && t[DigitsEnd(t, e + 1)] == CloseBracket)
    ensures NumberThenClose(t, m).Some?
  {
  }

  /** Spaces, OperatorCores[bi], spaces, a VALUES match and ] after j: the alternative bi succeeds. */
  lemma TryOperatorsAt(t: string, j: nat, bi: nat, k0: nat, k1: nat, m: nat, c: nat)
    requires j <= k0 <= k1 <= m <= c < |t| && bi < |OperatorCores|
    requires SpacesBetween(t, j, k0) && t[k0..k1] == OperatorCores[bi] && SpacesBetween(t, k1, m)
    requires ValueBetween(t, m, c) && t[c] == CloseBracket
    ensures TryOperators(t, j, bi).Some?
  {
    assert SpacesEnd(t, j) == k0 by {
      var core := OperatorCores[bi];
      assert |core| >= 1 && core[0] != ' ';
      assert t[k0] == t[k0..k1][0];
      SpacesAt(t, j, k0);
      SpacesEndAt(t, j, k0);
    }
    assert SpacesEnd(t, k1) == m by {
      ValueStart(t[m..c]);
      assert t[m..c][0] == t[m];
      SpacesAt(t, k1, m);
      SpacesEndAt(t, k1, m);
    }
    ValueComplete(t, m, c);
    TryOperatorsHit(t, j, bi, k0, k1, m);
  }

  /** The alternative bi is taken when its core t[k..c] follows the spaces at j and a value with ] follows its spaces. */
  lemma TryOperatorsHit(t: string, j: nat, bi: nat, k: nat, c: nat, m: nat)
    requires j <= |t| && bi < |OperatorCores| && SpacesEnd(t, j) == k
    requires k <= c <= |t| && t[k..c] == OperatorCores[bi]
    requires SpacesEnd(t, c) == m && ValueThenClose(t, m).Some?
    ensures TryOperators(t, j, bi).Some?
  {
    ValueAfterOperatorHit(t, j, k, c, bi, m);
    OperatorAlternativeIs(t, j, bi, k, c);
  }

  lemma ValueAfterOperatorHit(t: string, j: nat, k: nat, c: nat, a: nat, m: nat)
    requires j <= k <= c <= |t| && SpacesBetween(t, j, k) && a < |OperatorCores| && t[k..c] == OperatorCores[a]
    requires SpacesEnd(t, c) == m && ValueThenClose(t, m).Some?
    ensures ValueAfterOperator(t, j, k, c, a).Some?
  {
  }

  lemma OperatorAlternativeIs(t: string, j: nat, a: nat, k: nat, c: nat)
    requires j <= |t| && a < |OperatorCores| && SpacesEnd(t, j) == k
    requires k <= c <= |t| && t[k..c] == OperatorCores[a]
    ensures OperatorAlternative(t, j, a) == ValueAfterOperator(t, j, k, c, a)
  {
    var core := OperatorCores[a];
    assert |core| == c - k;
    assert OperatorAlternative(t, j, a) == if c <= |t| && t[k..c] == core then ValueAfterOperator(t, j, k, c, a) else None;
  }

  /**
   * When some OPERATORS alternative from index a onward, its spaces, a VALUES match and ]
   * follow j, TryOperators finds one.
   */
  lemma {:induction false} TryOperatorsComplete(t: string, j: nat, a: nat, bi: nat, k0: nat, k1: nat, m: nat, c: nat)
    requires j <= k0 <= k1 <= m <= c < |t| && a <= bi < |OperatorCores|
    requires SpacesBetween(t, j, k0) && t[k0..k1] == OperatorCores[bi] && SpacesBetween(t, k1, m)
    requires ValueBetween(t, m, c) && t[c] == CloseBracket
    ensures TryOperators(t, j, a).Some?
    decreases bi - a
  {
    if a < bi {
      TryOperatorsComplete(t, j, a + 1, bi, k0, k1, m, c);
    } else {
      TryOperatorsAt(t, j, bi, k0, k1, m, c);
    }
  }

  /** MatchBracketAt misses no match: whenever a bracket match starts at i, it finds one. */
  lemma MatchBracketAtComplete(t: string, i: nat, b: Bracket)
    requires i <= b.end <= |t| && IsBracketMatch(t, i, b)
    ensures MatchBracketAt(t, i).Some?
  {
    BracketParts(t, i, b);
    var j := i + 1 + |b.variable|;
    var m := j + |b.operator|;
    var c := b.end - 1;
    assert t[i + 1] == b.variable[0];
    OperatorStart(b.operator);
    assert t[j] == b.operator[0];
    assert forall k :: i + 2 <= k < j ==> IsVarChar(t[k]) by {
      forall k | i + 2 <= k < j ensures IsVarChar(t[k]) { assert t[k] == b.variable[k - i - 1]; }
    }
    VarCharsEndAt(t, i + 2, j);
    var k0, k1, bi := OperatorPositions(t, j, m);
    TryOperatorsComplete(t, j, 0, bi, k0, k1, m, c);
  }

  /** The successive matches of the global BRACKET_DISSECTOR exec loop from position i. */
  function BracketsFrom(t: string, i: nat): (bs: seq<Bracket>)
    requires i <= |t|
    ensures forall k :: 0 <= k < |bs| ==> IsVariable(bs[k].variable) && IsOperator(bs[k].operator) && IsValue(bs[k].value)
    decreases |t| - i
  {
    if i >= |t| then []
    else
      var b := MatchBracketAt(t, i);
      if b.Some? then [b.value] + BracketsFrom(t, b.value.end) else BracketsFrom(t, i + 1)
  }

  /** The exec loop passes over positions where no match starts. */
  lemma {:induction false} BracketsFromSkip(t: string, i: nat, p: nat)
    requires i <= p <= |t| && forall q :: i <= q < p ==> MatchBracketAt(t, q).None?
    ensures BracketsFrom(t, i) == BracketsFrom(t, p)
    decreases p - i
  {
    if i < p {
      BracketsFromSkip(t, i + 1, p);
    }
  }

  /**
   * The exec loop from lastIndex i: with no match at any position in [i, p), the list is empty
   * when p is the end, and otherwise starts with the match at p and goes on from where it ends.
   */
  lemma BracketsFromLeftmost(t: string, i: nat, p: nat)
    requires i <= p <= |t| && forall q :: i <= q < p ==> MatchBracketAt(t, q).None?
    ensures p == |t| ==> BracketsFrom(t, i) == []
    ensures p < |t| && MatchBracketAt(t, p).Some? ==>
      BracketsFrom(t, i) == [MatchBracketAt(t, p).value] + BracketsFrom(t, MatchBracketAt(t, p).value.end)
  {
    BracketsFromSkip(t, i, p);
  }

  /** (\[.*\])$ matches at p: a [ at p, a ] that is the last character, and no line terminator between. */
  predicate BracketRunAt(t: string, p: nat) {
    p + 2 <= |t| && t[p] == OpenBracket && t[|t| - 1] == CloseBracket && NoLineTerminator(t[p + 1..|t| - 1])
  }

  /** token.replace(/(\[.*\])$/g, ''): cut at the leftmost position where a bracket run reaches the end. */
  function StripTrailingBrackets(t: string): (r: string)
    ensures |r| <= |t| && r == t[..|r|]
    ensures |r| < |t| ==> BracketRunAt(t, |r|)
    ensures forall p :: 0 <= p < |r| ==> !BracketRunAt(t, p)
  {
    StripFrom(t, 0)
  }

  function StripFrom(t: string, i: nat): (r: string)
    requires i <= |t|
    ensures |r| <= |t| && r == t[..|r|]
    ensures |r| < |t| ==> i <= |r| && BracketRunAt(t, |r|)
    ensures forall p :: i <= p < |r| ==> !BracketRunAt(t, p)
    decreases |t| - i
  {
    if i + 2 > |t| then t
    else if BracketRunAt(t, i) then t[..i]
    else StripFrom(t, i + 1)
  }

  /** t[a..b] holds no line terminator. */
  predicate NoLineTerminatorBetween(t: string, a: nat, b: nat)
    requires a <= b <= |t|
  {
    forall k :: a <= k < b ==> !IsLineTerminator(t[k])
  }

  /** The lazy \{.+?} at j: the first } after at least one character, none of them a line terminator. */
  function BraceTermEnd(t: string, j: nat, q: nat): (r: Option<nat>)
    requires j + 1 <= q <= |t| && j < |t| && t[j] == OpenBrace
    requires forall i :: j < i < q ==> !IsLineTerminator(t[i])
    ensures r.Some? ==> q < r.value <= |t| && j + 3 <= r.value && t[r.value - 1] == CloseBrace
    ensures r.Some? ==> forall i :: j < i < r.value - 1 ==> !IsLineTerminator(t[i])
    ensures r.Some? ==> forall k :: q + 1 <= k < r.value - 1 ==> t[k] != CloseBrace
    ensures r.None? ==> forall c :: q + 1 <= c < |t| && t[c] == CloseBrace ==> !NoLineTerminatorBetween(t, q, c)
    decreases |t| - q
  {
    if q >= |t| || IsLineTerminator(t[q]) then None
    else if q + 1 < |t| && t[q + 1] == CloseBrace then Some(q + 2)
    else BraceTermEnd(t, j, q + 1)
  }

  /** A brace term: {, at least one character that is not a line terminator, then }. */
  lemma BraceTermShape(t: string, j: nat, e: nat)
    requires j + 3 <= e <= |t| && t[j] == OpenBrace && t[e - 1] == CloseBrace
    requires forall i :: j < i < e - 1 ==> !IsLineTerminator(t[i])
    ensures IsTerm(LeadingLetter, t[j..e]) && IsTerm(WordChars, t[j..e])
  {
    var s := t[j..e];
    assert s[0] == OpenBrace && s[|s| - 1] == CloseBrace;
    var inner := s[1..|s| - 1];
    forall k | 0 <= k < |inner| ensures !IsLineTerminator(inner[k]) {
      assert inner[k] == t[j + 1 + k];
    }
  }

  /** The first character of a bare term under the given syntax. */
  predicate StartsTerm(syntax: TermSyntax, c: char) {
    if syntax.LeadingLetter? then IsTermStart(c) else IsWordTermChar(c)
  }

  /** The later characters of a bare term under the given syntax. */
  predicate ContinuesTerm(syntax: TermSyntax, c: char) {
    if syntax.LeadingLetter? then IsTermChar(c) else IsWordTermChar(c)
  }

  /** The maximal run of term characters from j. */
  function BareTermEnd(syntax: TermSyntax, t: string, j: nat): (e: nat)
    requires j <= |t|
    ensures j <= e <= |t|
    ensures forall i :: j <= i < e ==> ContinuesTerm(syntax, t[i])
    ensures e < |t| ==> !ContinuesTerm(syntax, t[e])
    decreases |t| - j
  {
    if j < |t| && ContinuesTerm(syntax, t[j]) then BareTermEnd(syntax, t, j + 1)
    else j
  }

  /** t[j..e] is a TERMS word, stated on positions of t. */
  predicate TermSpan(syntax: TermSyntax, t: string, j: nat, e: nat)
    requires j < e <= |t|
  {
    (StartsTerm(syntax, t[j]) && forall i :: j < i < e ==> ContinuesTerm(syntax, t[i])) ||
    (t[j] == OpenBrace && j + 3 <= e && t[e - 1] == CloseBrace && forall i :: j < i < e - 1 ==> !IsLineTerminator(t[i]))
  }

  /** A span that TermSpan accepts is a whole string that IsTerm accepts. */
  lemma TermSpanIsTerm(syntax: TermSyntax, t: string, j: nat, e: nat)
    requires j < e <= |t| && TermSpan(syntax, t, j, e)
    ensures IsTerm(syntax, t[j..e])
  {
    var s := t[j..e];
    if StartsTerm(syntax, t[j]) && forall i :: j < i < e ==> ContinuesTerm(syntax, t[i]) {
      assert s[0] == t[j];
      if syntax.LeadingLetter? {
        forall i | 1 <= i < |s| ensures IsTermChar(s[i]) { assert s[i] == t[j + i]; assert ContinuesTerm(syntax, t[j + i]); }
      } else {
        forall i | 0 <= i < |s| ensures IsWordTermChar(s[i]) {
          assert s[i] == t[j + i];
          if i > 0 { assert ContinuesTerm(syntax, t[j + i]); }
        }
      }
    } else {
      BraceTermShape(t, j, e);
    }
  }

  /** TERMS at position j: a maximal bare word, else a lazy brace term. */
  function TermAt(syntax: TermSyntax, t: string, j: nat): (r: Option<nat>)
    requires j <= |t|
    ensures r.Some? ==> j < r.value <= |t| && TermSpan(syntax, t, j, r.value)
    ensures r.Some? && StartsTerm(syntax, t[j]) ==> r.value == |t| || !ContinuesTerm(syntax, t[r.value])
    ensures r.Some? && !StartsTerm(syntax, t[j]) ==> forall k :: j + 2 <= k < r.value - 1 ==> t[k] != CloseBrace
    ensures r.None? ==> j == |t| || (!StartsTerm(syntax, t[j]) && (t[j] != OpenBrace || BraceTermEnd(t, j, j + 1).None?))
    ensures r.None? ==> forall e :: j < e <= |t| ==> !TermSpan(syntax, t, j, e)
  {
    if j < |t| && StartsTerm(syntax, t[j]) then Some(BareTermEnd(syntax, t, j + 1))
    else if j < |t| && t[j] == OpenBrace then BraceTermEnd(t, j, j + 1)
    else None
  }

  /** The properties expression ([types]TERMS|WILDCARDS) anchored at position i. */
  function PropertyAt(syntax: TermSyntax, types: set<char>, t: string, i: nat): (r: Option<nat>)
    requires i <= |t|
    ensures r.Some? ==> i < r.value <= |t|
    ensures r.Some? ==> (t[i] in types && i + 1 < r.value && TermSpan(syntax, t, i + 1, r.value)) || (r.value == i + 1 && IsWildcardChar(t[i]))
    ensures i < |t| && t[i] in types && TermAt(syntax, t, i + 1).Some? ==> r == TermAt(syntax, t, i + 1)
    ensures r.None? ==> i == |t| || (!IsWildcardChar(t[i]) && (t[i] in types ==> var j := i + 1; forall e :: j < e <= |t| ==> !TermSpan(syntax, t, j, e)))
  {
    if i >= |t| then None
    else
      var term := if t[i] in types then TermAt(syntax, t, i + 1) else None;
      if term.Some? then term
      else if IsWildcardChar(t[i]) then Some(i + 1)
      else None
  }

  /** String.prototype.match with the global properties expression: every match in order. */
  function PropertiesFrom(syntax: TermSyntax, types: set<char>, t: string, i: nat): (ms: seq<string>)
    requires i <= |t|
    ensures forall k :: 0 <= k < |ms| ==> |ms[k]| >= 1 && (ms[k][0] in types || IsWildcardChar(ms[k][0]))
    decreases |t| - i
  {
    if i >= |t| then []
    else
      var e := PropertyAt(syntax, types, t, i);
      if e.Some? then [t[i..e.value]] + PropertiesFrom(syntax, types, t, e.value)
      else PropertiesFrom(syntax, types, t, i + 1)
  }

  /** The global match passes over positions where no properties match starts. */
  lemma {:induction false} PropertiesFromSkip(syntax: TermSyntax, types: set<char>, t: string, i: nat, p: nat)
    requires i <= p <= |t| && forall q :: i <= q < p ==> PropertyAt(syntax, types, t, q).None?
    ensures PropertiesFrom(syntax, types, t, i) == PropertiesFrom(syntax, types, t, p)
    decreases p - i
  {
    if i < p {
      PropertiesFromSkip(syntax, types, t, i + 1, p);
    }
  }

  /**
   * The global match from i: with no match at any position in [i, p), the list is empty when p is
   * the end, and otherwise starts with the text of the match at p and goes on from where it ends.
   */
  lemma PropertiesFromLeftmost(syntax: TermSyntax, types: set<char>, t: string, i: nat, p: nat)
    requires i <= p <= |t| && forall q :: i <= q < p ==> PropertyAt(syntax, types, t, q).None?
    ensures p == |t| ==> PropertiesFrom(syntax, types, t, i) == []
    ensures p < |t| && PropertyAt(syntax, types, t, p).Some? ==>
      PropertiesFrom(syntax, types, t, i) ==
        [t[p..PropertyAt(syntax, types, t, p).value]] + PropertiesFrom(syntax, types, t, PropertyAt(syntax, types, t, p).value)
  {
    PropertiesFromSkip(syntax, types, t, i, p);
  }

  /** The properties match of a string: None (JavaScript's null) when there is none. */
  function MatchProperties(syntax: TermSyntax, types: set<char>, t: string): (r: Option<seq<string>>)
    ensures r.Some? ==> |r.value| >= 1
  {
    var ms := PropertiesFrom(syntax, types, t, 0);
    if ms == [] then None else Some(ms)
  }

  // ---------------------------------------------------------------------
  // term.replace(/\{ *([\s\S]+?) *}/g, '$1')
  // ---------------------------------------------------------------------

  /** Whether a run of spaces from b ends at a closing brace (the ` *}` tail of the pattern). */
  predicate SpacesThenBrace(t: string, b: nat)
    requires b <= |t|
  {
    SpacesEnd(t, b) < |t| && t[SpacesEnd(t, b)] == CloseBrace
  }

  /** The lazy group: the first b >= from that the tail accepts. */
  function GroupEnd(t: string, from: nat): (r: Option<nat>)
    requires from <= |t|
    ensures r.Some? ==> from <= r.value <= |t| && SpacesThenBrace(t, r.value)
    ensures r.Some? ==> forall b :: from <= b < r.value ==> !SpacesThenBrace(t, b)
    ensures r.None? ==> forall b :: from <= b <= |t| ==> !SpacesThenBrace(t, b)
    decreases |t| - from
  {
    if SpacesThenBrace(t, from) then Some(from)
    else if from == |t| then None
    else GroupEnd(t, from + 1)
  }

  /** With l leading spaces consumed (trying l, then fewer), the group and the end of the match. */
  function BraceWithLead(t: string, p: nat, l: nat): (r: Option<(string, nat)>)
    requires p + 1 + l <= |t|
    ensures r.Some? ==> p + 1 < r.value.1 <= |t| && |r.value.0| >= 1
    decreases l
  {
    var a := p + 1 + l;
    var b := if a + 1 <= |t| then GroupEnd(t, a + 1) else None;
    if b.Some? then Some((t[a..b.value], SpacesEnd(t, b.value) + 1))
    else if l == 0 then None
    else BraceWithLead(t, p, l - 1)
  }

  /** The pattern anchored at p. */
  function BraceAt(t: string, p: nat): (r: Option<(string, nat)>)
    requires p <= |t|
    ensures r.Some? ==> p < r.value.1 <= |t|
  {
    if p < |t| && t[p] == OpenBrace then BraceWithLead(t, p, SpacesEnd(t, p + 1) - (p + 1)) else None
  }

  /** The global replacement from position p. */
  function UnwrapFrom(t: string, p: nat): string
    requires p <= |t|
    decreases |t| - p
  {
    if p >= |t| then []
    else
      var m := BraceAt(t, p);
      if m.Some? then m.value.0 + UnwrapFrom(t, m.value.1) else [t[p]] + UnwrapFrom(t, p + 1)
  }

  function UnwrapBraces(t: string): string {
    UnwrapFrom(t, 0)
  }

  /** A string with no { is left as it is. */
  lemma {:induction false} UnwrapWithoutBraces(t: string, p: nat)
    requires p <= |t| && forall i :: p <= i < |t| ==> t[i] != OpenBrace
    ensures UnwrapFrom(t, p) == t[p..]
    decreases |t| - p
  {
    if p < |t| {
      UnwrapWithoutBraces(t, p + 1);
    }
  }

  /** ^q(.*)q$ with q the quote: the quote, a run without line terminators, the quote again. */
  predicate QuotedWith(v: string, quote: char) {
    |v| >= 2 && v[0] == quote && v[|v| - 1] == quote && NoLineTerminator(v[1..|v| - 1])
  }

  /** .replace(/^'(.*)'$/, '$1') for quote ' and .replace(/^"(.*)"$/, '$1') for quote ". */
  function StripQuotes(v: string, quote: char): (r: string)
    ensures QuotedWith(v, quote) ==> |r| == |v| - 2 && r == v[1..|v| - 1]
    ensures !QuotedWith(v, quote) ==> r == v
  {
    if QuotedWith(v, quote) then v[1..|v| - 1] else v
  }

  /** Wrapping a line in the quote and stripping it gives the line back. */
  lemma StripQuotesRoundTrip(s: string, quote: char)
    requires NoLineTerminator(s)
    ensures StripQuotes([quote] + s + [quote], quote) == s
  {
    var v := [quote] + s + [quote];
    assert v[1..|v| - 1] == s;
  }

  /** The literal of a bracket value: single quotes stripped, then double quotes, then read as a JavaScript value. */
  function BracketValue(raw: string): Value {
    ToJSValue(StripQuotes(StripQuotes(raw, SingleQuote), DoubleQuote))
  }

  /** REPLACE_CIRCULAR_PARENTS: an object under the key parent becomes that object's id. */
  function ReplaceCircularParents(key: string, value: Value, idOf: Uid -> Value): (r: Value)
    ensures key != "parent" || !Truthy(value) || !IsObject(value) ==> r == value
    ensures key == "parent" && value.Ref? ==> r == idOf(value.target)
    ensures key == "parent" && (value.Obj? || value.Arr?) ==> r == GetProp(value, "id")
  {
    if key == "parent" && Truthy(value) && IsObject(value) then
      if value.Ref? then idOf(value.target) else GetProp(value, "id")
    else value
  }
}
