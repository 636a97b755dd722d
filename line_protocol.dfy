/**
 * The serial line protocol (`SerialReader.parse_data`).
 *
 * A line is searched (not fully matched) for the pattern
 *   P:N,T:N,MV:N,SH:N,F:W,M:W,ESD:W,ESTADO:S,RELIEF:W,PURGE:W
 * where N is a non-empty run of [\d.-], W a non-empty run of \w and S a
 * non-empty run of [\w\s:]. None of the three classes holds a comma and
 * every key after the first starts with one, so at a given start position
 * the backtracking regular-expression engine can only ever choose the
 * longest run for each group: the matcher below is that maximal munch, and
 * the search is the scan for the leftmost position where it succeeds.
 * The four numeric groups are then converted with Python's `float`; a
 * group it rejects ("1-2", "-", ".") makes the whole line yield `None`.
 */
module LineProtocol {
  import opened Wrappers
  import opened Decimal

  // ---------------------------------------------------------------------
  // Character classes
  // ---------------------------------------------------------------------

  datatype CharClass =
    | Number     // [\d.-]
    | Word       // \w
    | StateText  // [\w\s:]

  /** An inclusive range of code points. */
  datatype Range = Range(lo: char, hi: char)

  /** Membership in a class given as a list of ranges, as a compiled character set is. */
  predicate InRanges(c: char, rs: seq<Range>) {
    rs != [] && (rs[0].lo <= c <= rs[0].hi || InRanges(c, rs[1..]))
  }

  lemma {:induction false} InRangesAt(c: char, rs: seq<Range>, i: nat)
    requires i < |rs| && rs[i].lo <= c <= rs[i].hi
    ensures InRanges(c, rs)
  {
    if i > 0 {
      InRangesAt(c, rs[1..], i - 1);
    }
  }

  const Digits: seq<Range> := [Range('0', '9')]

  /** `\w` on str patterns, up to U+00FF: letters, numeric characters and '_'. */
  const WordRanges: seq<Range> := [
    Range('0', '9'), Range('A', 'Z'), Range('_', '_'), Range('a', 'z'),
    Range('\U{AA}', '\U{AA}'), Range('\U{B2}', '\U{B3}'), Range('\U{B5}', '\U{B5}'),
    Range('\U{B9}', '\U{BA}'), Range('\U{BC}', '\U{BE}'), Range('\U{C0}', '\U{D6}'),
    Range('\U{D8}', '\U{F6}'), Range('\U{F8}', '\U{FF}')
  ]

  /** `\s` on str patterns: the characters for which `str.isspace` holds. */
  const SpaceRanges: seq<Range> := [
    Range('\t', '\r'), Range('\U{1C}', ' '), Range('\U{85}', '\U{85}'), Range('\U{A0}', '\U{A0}'),
    Range('\U{1680}', '\U{1680}'), Range('\U{2000}', '\U{200A}'), Range('\U{2028}', '\U{2029}'),
    Range('\U{202F}', '\U{202F}'), Range('\U{205F}', '\U{205F}'), Range('\U{3000}', '\U{3000}')
  ]

  predicate IsWordChar(c: char) {
    InRanges(c, WordRanges)
  }

  /** The ASCII letters, digits and '_' are word characters. */
  lemma AsciiWordChar(c: char)
    requires '0' <= c <= '9' || 'A' <= c <= 'Z' || c == '_' || 'a' <= c <= 'z'
    ensures IsWordChar(c)
  {
    var i := if c <= '9' then 0 else if c <= 'Z' then 1 else if c == '_' then 2 else 3;
    InRangesAt(c, WordRanges, i);
  }

  predicate InClass(c: char, k: CharClass) {
    match k
    case Number => InRanges(c, Digits) || c == '.' || c == '-'
    case Word => IsWordChar(c)
    case StateText => IsWordChar(c) || InRanges(c, SpaceRanges) || c == ':'
  }

  lemma CommaNotDigit()
    ensures !InRanges(',', Digits)
  {
  }

  lemma CommaNotWord()
    ensures !InRanges(',', WordRanges)
  {
  }

  lemma CommaNotSpace()
    ensures !InRanges(',', SpaceRanges)
  {
  }

  /** No class holds a comma, the character that starts every key but the first. */
  lemma CommaInNoClass(k: CharClass)
    ensures !InClass(',', k)
  {
    CommaNotDigit();
    CommaNotWord();
    CommaNotSpace();
  }

  predicate AllIn(s: string, k: CharClass) {
    forall i :: 0 <= i < |s| ==> InClass(s[i], k)
  }

  /** Length of the longest prefix of `s` inside class `k`. */
  function RunLength(s: string, k: CharClass): (n: nat)
    ensures n <= |s|
    ensures AllIn(s[..n], k)
    ensures n < |s| ==> !InClass(s[n], k)
  {
    if s == [] || !InClass(s[0], k) then 0
    else
      var n := RunLength(s[1..], k);
      AllInCons(s, n, k);
      1 + n
  }

  /** A class character followed by a run of the class is a run of the class. */
  lemma AllInCons(s: string, n: nat, k: CharClass)
    requires s != [] && n < |s| && InClass(s[0], k) && AllIn(s[1..][..n], k)
    ensures AllIn(s[..n + 1], k)
  {
    forall i | 0 < i < n + 1
      ensures InClass(s[i], k)
    {
      assert s[i] == s[1..][..n][i - 1];
    }
  }

  /** A run is extended by exactly the run that follows it. */
  lemma {:induction false} RunLengthConcat(a: string, b: string, k: CharClass)
    requires AllIn(a, k)
    ensures RunLength(a + b, k) == |a| + RunLength(b, k)
  {
    if a != [] {
      assert (a + b)[1..] == a[1..] + b;
      RunLengthConcat(a[1..], b, k);
    } else {
      assert a + b == b;
    }
  }

  // ---------------------------------------------------------------------
  // The pattern and its matcher at one position
  // ---------------------------------------------------------------------

  /** One `KEY:(class+)` element of the pattern; `key` includes the separating comma. */
  datatype Field = Field(key: string, cls: CharClass)

  const Grammar: seq<Field> := [
    Field("P:", Number), Field(",T:", Number), Field(",MV:", Number), Field(",SH:", Number),
    Field(",F:", Word), Field(",M:", Word), Field(",ESD:", Word),
    Field(",ESTADO:", StateText), Field(",RELIEF:", Word), Field(",PURGE:", Word)
  ]

  /** Every key after the first starts with a character the previous group cannot hold. */
  predicate Chained(g: seq<Field>) {
    forall i :: 0 < i < |g| ==> g[i].key != [] && !InClass(g[i].key[0], g[i - 1].cls)
  }

  lemma GrammarChained()
    ensures Chained(Grammar)
  {
    forall i | 0 < i < |Grammar|
      ensures Grammar[i].key != [] && !InClass(Grammar[i].key[0], Grammar[i - 1].cls)
    {
      assert Grammar[i].key[0] == ',';
      CommaInNoClass(Grammar[i - 1].cls);
    }
  }

  /** The captured groups fit the pattern: one non-empty run of its class per element. */
  predicate GroupsFit(g: seq<Field>, gs: seq<string>) {
    |gs| == |g| && forall i :: 0 <= i < |g| ==> gs[i] != [] && AllIn(gs[i], g[i].cls)
  }

  /** The text a pattern matches with the given groups: key, group, key, group, ... */
  function Render(g: seq<Field>, gs: seq<string>): string
    requires |gs| == |g|
  {
    if g == [] then [] else g[0].key + gs[0] + Render(g[1..], gs[1..])
  }

  /**
   * The groups of the match of `g` anchored at the start of `s`, each group
   * its class's longest run (see `MatchFieldsSound` for what they decompose).
   */
  function MatchFields(s: string, g: seq<Field>): (r: Option<seq<string>>)
    ensures r.Some? ==> GroupsFit(g, r.value)
  {
    if g == [] then Some([])
    else if !(g[0].key <= s) then None
    else
      var t := s[|g[0].key|..];
      var n := RunLength(t, g[0].cls);
      if n == 0 then None
      else
        match MatchFields(t[n..], g[1..])
        case None => None
        case Some(more) => Some([t[..n]] + more)
  }

  /** Soundness: the groups found, with the pattern's keys between them, spell a prefix of `s`. */
  lemma {:induction false} MatchFieldsSound(s: string, g: seq<Field>)
    requires MatchFields(s, g).Some?
    ensures Render(g, MatchFields(s, g).value) <= s
  {
    if g != [] {
      var t := s[|g[0].key|..];
      var n := RunLength(t, g[0].cls);
      MatchFieldsSound(t[n..], g[1..]);
      var gs := MatchFields(s, g).value;
      assert gs[1..] == MatchFields(t[n..], g[1..]).value;
      assert s == g[0].key + t[..n] + t[n..];
      assert Render(g, gs) == g[0].key + t[..n] + Render(g[1..], gs[1..]);
    }
  }

  /** The matcher's first step, on a string that starts with the first key. */
  lemma MatchFieldsUnfold(g: seq<Field>, t: string)
    requires g != []
    ensures MatchFields(g[0].key + t, g) ==
      var n := RunLength(t, g[0].cls);
      if n == 0 then None
      else match MatchFields(t[n..], g[1..])
        case None => None
        case Some(more) => Some([t[..n]] + more)
  {
    assert (g[0].key + t)[|g[0].key|..] == t;
  }

  /** One step of the matcher: a key, then a group that its class's run ends exactly at. */
  lemma MatchFieldsStep(g: seq<Field>, grp: string, after: string)
    requires g != [] && grp != [] && AllIn(grp, g[0].cls)
    requires RunLength(grp + after, g[0].cls) == |grp|
    ensures MatchFields(g[0].key + (grp + after), g) ==
      match MatchFields(after, g[1..])
      case None => None
      case Some(more) => Some([grp] + more)
  {
    MatchFieldsUnfold(g, grp + after);
    assert (grp + after)[..|grp|] == grp && (grp + after)[|grp|..] == after;
  }

  /** Completeness for a one-element pattern: its group runs greedily into `rest`. */
  lemma MatchFieldsCompleteLast(g: seq<Field>, gs: seq<string>, rest: string)
    requires |g| == 1 && GroupsFit(g, gs)
    ensures MatchFields(Render(g, gs) + rest, g) == Some([gs[0] + rest[..RunLength(rest, g[0].cls)]])
  {
    assert Render(g[1..], gs[1..]) == [];
    assert Render(g, gs) + rest == g[0].key + (gs[0] + rest);
    RunLengthConcat(gs[0], rest, g[0].cls);
    var t := gs[0] + rest;
    MatchFieldsUnfold(g, t);
    var n := RunLength(t, g[0].cls);
    assert g[1..] == [];
    assert MatchFields(t[n..], g[1..]) == Some([]);
    assert MatchFields(g[0].key + t, g) == Some([t[..n]] + []);
    assert [t[..n]] + [] == [t[..n]];
    assert t[..n] == gs[0] + rest[..RunLength(rest, g[0].cls)];
  }

  /** Matching a pattern of two or more elements: the first group, then the rest of the match. */
  lemma MatchFieldsCons(g: seq<Field>, gs: seq<string>, rest: string)
    requires |g| > 1 && Chained(g) && GroupsFit(g, gs)
    ensures MatchFields(Render(g, gs) + rest, g) ==
      match MatchFields(Render(g[1..], gs[1..]) + rest, g[1..])
      case None => None
      case Some(more) => Some([gs[0]] + more)
  {
    var tail := Render(g[1..], gs[1..]) + rest;
    assert Render(g, gs) + rest == g[0].key + (gs[0] + tail);
    assert tail[0] == g[1].key[0];
    RunLengthConcat(gs[0], tail, g[0].cls);
    MatchFieldsStep(g, gs[0], tail);
  }

  /**
   * Completeness of the maximal munch: wherever the pattern can match at
   * all, the matcher matches, with the same groups except the last, which
   * it extends by every further character of its class (greedy `+`).
   */
  lemma {:induction false} MatchFieldsComplete(g: seq<Field>, gs: seq<string>, rest: string)
    requires g != [] && Chained(g) && GroupsFit(g, gs)
    ensures var r := MatchFields(Render(g, gs) + rest, g);
      && r.Some? && |r.value| == |g|
      && r.value[..|g| - 1] == gs[..|g| - 1]
      && r.value[|g| - 1] == gs[|g| - 1] + rest[..RunLength(rest, g[|g| - 1].cls)]
  {
    if |g| == 1 {
      MatchFieldsCompleteLast(g, gs, rest);
    } else {
      TailFits(g, gs);
      MatchFieldsComplete(g[1..], gs[1..], rest);
      MatchFieldsCompleteCons(g, gs, rest);
    }
  }

  /** Dropping the first element of a pattern and its group keeps them chained and fitting. */
  lemma TailFits(g: seq<Field>, gs: seq<string>)
    requires |g| > 1 && Chained(g) && GroupsFit(g, gs)
    ensures Chained(g[1..]) && GroupsFit(g[1..], gs[1..])
  {
    var g', gs' := g[1..], gs[1..];
    forall i | 0 < i < |g'|
      ensures g'[i].key != [] && !InClass(g'[i].key[0], g'[i - 1].cls)
    {
      assert g'[i] == g[i + 1] && g'[i - 1] == g[i];
    }
    forall i | 0 <= i < |g'|
      ensures gs'[i] != [] && AllIn(gs'[i], g'[i].cls)
    {
      assert gs'[i] == gs[i + 1] && g'[i] == g[i + 1];
    }
  }

  /** The induction step of `MatchFieldsComplete`: the first group, then the match of the rest. */
  lemma MatchFieldsCompleteCons(g: seq<Field>, gs: seq<string>, rest: string)
    requires |g| > 1 && Chained(g) && GroupsFit(g, gs)
    requires Chained(g[1..]) && GroupsFit(g[1..], gs[1..])
    requires var r := MatchFields(Render(g[1..], gs[1..]) + rest, g[1..]);
      && r.Some? && |r.value| == |g| - 1
      && r.value[..|g| - 2] == gs[1..][..|g| - 2]
      && r.value[|g| - 2] == gs[1..][|g| - 2] + rest[..RunLength(rest, g[1..][|g| - 2].cls)]
    ensures var r := MatchFields(Render(g, gs) + rest, g);
      && r.Some? && |r.value| == |g|
      && r.value[..|g| - 1] == gs[..|g| - 1]
      && r.value[|g| - 1] == gs[|g| - 1] + rest[..RunLength(rest, g[|g| - 1].cls)]
  {
    var g', gs' := g[1..], gs[1..];
    MatchFieldsCons(g, gs, rest);
    var more := MatchFields(Render(g', gs') + rest, g').value;
    var r := [gs[0]] + more;
    assert MatchFields(Render(g, gs) + rest, g) == Some(r);
    PrefixCons(gs[0], more, gs', |g| - 2);
    assert [gs[0]] + gs' == gs;
    assert r[|g| - 1] == more[|g'| - 1];
    assert g'[|g'| - 1] == g[|g| - 1] && gs'[|g'| - 1] == gs[|g| - 1];
  }

  lemma PrefixCons<T>(x: T, a: seq<T>, b: seq<T>, k: nat)
    requires k <= |a| && k <= |b| && a[..k] == b[..k]
    ensures ([x] + a)[..k + 1] == ([x] + b)[..k + 1]
  {
    assert ([x] + a)[..k + 1] == [x] + a[..k];
    assert ([x] + b)[..k + 1] == [x] + b[..k];
  }

  lemma SameUpToLast<T>(a: seq<T>, b: seq<T>)
    requires |a| == |b| > 0 && a[..|a| - 1] == b[..|a| - 1] && a[|a| - 1] == b[|a| - 1]
    ensures a == b
  {
    assert a == a[..|a| - 1] + [a[|a| - 1]];
    assert b == b[..|a| - 1] + [b[|a| - 1]];
  }

  /** The matcher reads back exactly the groups it was rendered from. */
  lemma MatchFieldsRoundTrip(g: seq<Field>, gs: seq<string>, rest: string)
    requires g != [] && Chained(g) && GroupsFit(g, gs)
    requires rest == [] || !InClass(rest[0], g[|g| - 1].cls)
    ensures MatchFields(Render(g, gs) + rest, g) == Some(gs)
  {
    var last := |g| - 1;
    assert RunLength(rest, g[last].cls) == 0;
    MatchFieldsComplete(g, gs, rest);
    var r := MatchFields(Render(g, gs) + rest, g).value;
    assert gs[last] + rest[..0] == gs[last];
    SameUpToLast(r, gs);
  }

  // ---------------------------------------------------------------------
  // re.search: the leftmost position where the pattern matches
  // ---------------------------------------------------------------------

  datatype Match = Match(pos: nat, groups: seq<string>)

  predicate MatchesAt(line: string, g: seq<Field>, j: nat)
    requires j <= |line|
  {
    MatchFields(line[j..], g).Some?
  }

  /** Scans positions `i`, `i + 1`, ..., `|line|` for the first match of `g`. */
  function SearchFrom(line: string, g: seq<Field>, i: nat): (r: Option<Match>)
    requires i <= |line|
    ensures r.Some? ==>
      && i <= r.value.pos <= |line|
      && MatchFields(line[r.value.pos..], g) == Some(r.value.groups)
    decreases |line| - i
  {
    var m := MatchFields(line[i..], g);
    if m.Some? then Some(Match(i, m.value))
    else if i == |line| then None
    else SearchFrom(line, g, i + 1)
  }

  /**
   * The search finds the leftmost position where the pattern matches, and
   * finds nothing only when no position matches.
   */
  lemma {:induction false} SearchFromLeftmost(line: string, g: seq<Field>, i: nat)
    requires i <= |line|
    ensures var r := SearchFrom(line, g, i);
      && (r.Some? ==> forall j :: i <= j < r.value.pos ==> !MatchesAt(line, g, j))
      && (r.None? ==> forall j :: i <= j <= |line| ==> !MatchesAt(line, g, j))
    decreases |line| - i
  {
    var r := SearchFrom(line, g, i);
    if !MatchesAt(line, g, i) && i < |line| {
      SearchFromLeftmost(line, g, i + 1);
      var r' := SearchFrom(line, g, i + 1);
      assert r == r';
      if r.Some? {
        forall j | i <= j < r.value.pos
          ensures !MatchesAt(line, g, j)
        {
          if j > i {
            assert i + 1 <= j < r'.value.pos;
          }
        }
      } else {
        forall j | i <= j <= |line|
          ensures !MatchesAt(line, g, j)
        {
          if j > i {
            assert i + 1 <= j <= |line|;
          }
        }
      }
    }
  }

  /**
   * `re.search` of the line protocol's pattern: the match at the leftmost
   * position where the pattern matches, `None` when it matches nowhere.
   */
  function Search(line: string): (r: Option<Match>)
    ensures r.Some? ==>
      && r.value.pos <= |line|
      && MatchFields(line[r.value.pos..], Grammar) == Some(r.value.groups)
      && forall j :: 0 <= j < r.value.pos ==> !MatchesAt(line, Grammar, j)
    ensures r.None? ==> forall j :: 0 <= j <= |line| ==> !MatchesAt(line, Grammar, j)
  {
    SearchFromLeftmost(line, Grammar, 0);
    SearchFrom(line, Grammar, 0)
  }

  // ---------------------------------------------------------------------
  // float(): which [\d.-] runs convert, and to what value
  // ---------------------------------------------------------------------

  /** Index of the first '.' in `s`, or `|s|` when there is none. */
  function DotIndex(s: string): (d: nat)
    ensures d <= |s| && '.' !in s[..d]
    ensures d < |s| ==> s[d] == '.'
  {
    if s == [] || s[0] == '.' then 0 else 1 + DotIndex(s[1..])
  }

  /** Python's float literal without sign or exponent: digits, at most one '.', some digit. */
  predicate UnsignedDecimal(u: string) {
    var d := DotIndex(u);
    && AllDigits(u[..d])
    && (d < |u| ==> AllDigits(u[d + 1..]))
    && |u| > (if d < |u| then 1 else 0)
  }

  /**
   * Digits and points only, no point after another, and some digit: the
   * unsigned numerals `float()` accepts, stated character by character.
   */
  ghost predicate DecimalShape(u: string) {
    && (forall i :: 0 <= i < |u| ==> IsDigit(u[i]) || u[i] == '.')
    && (forall i, j :: 0 <= i < j < |u| && u[i] == '.' ==> u[j] != '.')
    && (exists i :: 0 <= i < |u| && IsDigit(u[i]))
  }

  /** The split at the first point describes exactly the numerals of `DecimalShape`. */
  lemma UnsignedDecimalShape(u: string)
    ensures UnsignedDecimal(u) <==> DecimalShape(u)
  {
    var d := DotIndex(u);
    if UnsignedDecimal(u) {
      forall i | 0 <= i < |u| && i != d
        ensures IsDigit(u[i])
      {
        if i < d {
          assert u[..d][i] == u[i];
        } else {
          assert u[d + 1..][i - d - 1] == u[i];
        }
      }
      if d < |u| {
        if d > 0 {
          assert IsDigit(u[0]);
        } else {
          assert IsDigit(u[1]);
        }
      } else {
        assert IsDigit(u[0]);
      }
    }
    if DecimalShape(u) {
      forall i | 0 <= i < d
        ensures IsDigit(u[..d][i])
      {
        assert u[..d][i] == u[i] && u[i] in u[..d];
      }
      if d < |u| {
        var t := u[d + 1..];
        forall i | 0 <= i < |t|
          ensures IsDigit(t[i])
        {
          assert t[i] == u[d + 1 + i];
        }
        var k :| 0 <= k < |u| && IsDigit(u[k]);
        assert k != d;
      }
    }
  }

  /** The strings over [\d.-] that `float()` accepts: an optional '-' then an unsigned numeral. */
  predicate FloatSyntax(s: string) {
    if s != [] && s[0] == '-' then UnsignedDecimal(s[1..]) else UnsignedDecimal(s)
  }

  /**
   * `float()` accepts a text over [\d.-] exactly when, past an optional
   * leading '-', it holds digits and at most one point, and some digit.
   */
  lemma FloatSyntaxShape(s: string)
    ensures FloatSyntax(s) <==> DecimalShape(if s != [] && s[0] == '-' then s[1..] else s)
  {
    UnsignedDecimalShape(if s != [] && s[0] == '-' then s[1..] else s);
  }

  /** The value of an unsigned numeral: its digits before the point are its whole part. */
  function UnsignedValue(u: string): (v: real)
    requires UnsignedDecimal(u)
    ensures var w := DigitsValue(u[..DotIndex(u)]) as real; w <= v < w + 1.0
  {
    var d := DotIndex(u);
    var whole := DigitsValue(u[..d]) as real;
    if d < |u| then
      var num, den := DigitsValue(u[d + 1..]), Pow10(|u| - d - 1);
      DigitsValueBelow(u[d + 1..]);
      FractionBelowOne(num, den);
      whole + (num as real) / (den as real)
    else whole
  }

  lemma FractionBelowOne(num: nat, den: nat)
    requires num < den
    ensures 0.0 <= (num as real) / (den as real) < 1.0
  {
    assert (num as real) / (den as real) * (den as real) == num as real;
  }

  /**
   * The exact decimal value of an accepted numeral (binary rounding is not
   * modelled): its whole part is the digits before the point, with the sign
   * of the leading '-'.
   */
  function FloatValue(s: string): (v: real)
    requires FloatSyntax(s)
    ensures var neg := s != [] && s[0] == '-';
      var u := if neg then s[1..] else s;
      var w := DigitsValue(u[..DotIndex(u)]) as real;
      if neg then -w - 1.0 < v <= -w else w <= v < w + 1.0
  {
    if s != [] && s[0] == '-' then -UnsignedValue(s[1..]) else UnsignedValue(s)
  }

  lemma {:induction false} DotIndexAfterDigits(a: string, rest: string)
    requires AllDigits(a)
    ensures DotIndex(a + rest) == |a| + DotIndex(rest)
  {
    if a != [] {
      assert (a + rest)[1..] == a[1..] + rest;
      DotIndexAfterDigits(a[1..], rest);
    } else {
      assert a + rest == rest;
    }
  }

  /** Digits, a point and digits: the first point sits after the first digits, and there is no sign. */
  lemma PointedParts(a: string, b: string)
    requires AllDigits(a) && AllDigits(b) && |a| + |b| > 0
    ensures var u := a + "." + b;
      && DotIndex(u) == |a| && |u| - |a| - 1 == |b|
      && u[..|a|] == a && u[|a| + 1..] == b
      && u[0] != '-' && UnsignedDecimal(u)
  {
    var u := a + "." + b;
    DotIndexAfterDigits(a, "." + b);
    assert u == a + ("." + b);
    assert u[..|a|] == a && u[|a| + 1..] == b;
    if a != [] {
      assert u[0] == a[0] && IsDigit(u[0]);
    }
  }

  /** A numeral written as digits, a point and digits converts to its decimal value. */
  lemma FloatOfPointed(a: string, b: string)
    requires AllDigits(a) && AllDigits(b) && |a| + |b| > 0
    ensures FloatSyntax(a + "." + b)
    ensures FloatValue(a + "." + b) == DigitsValue(a) as real + (DigitsValue(b) as real) / (Pow10(|b|) as real)
  {
    var u := a + "." + b;
    PointedParts(a, b);
    assert FloatValue(u) == UnsignedValue(u);
  }

  /** A leading '-' negates an unsigned numeral. */
  lemma FloatOfNegated(u: string)
    requires FloatSyntax(u) && (u == [] || u[0] != '-')
    ensures FloatSyntax("-" + u) && FloatValue("-" + u) == -FloatValue(u)
  {
    assert ("-" + u)[1..] == u;
  }

  /** Every numeral of digits alone converts, to its decimal value. */
  lemma FloatOfDigits(a: string)
    requires AllDigits(a) && a != []
    ensures FloatSyntax(a) && FloatValue(a) == DigitsValue(a) as real
  {
    DotIndexAfterDigits(a, "");
    assert a + "" == a && a[..|a|] == a;
    assert IsDigit(a[0]);
  }

  /** Every rendered natural number converts, to itself. */
  lemma FloatOfDecimal(n: nat)
    ensures FloatSyntax(DecimalString(n)) && FloatValue(DecimalString(n)) == n as real
  {
    FloatOfDigits(DecimalString(n));
    DecimalRoundTrip(n);
  }

  /** A '-' anywhere but in front is rejected, as in "1-2". */
  lemma FloatRejectsInnerMinus(s: string, i: nat)
    requires 0 < i < |s| && s[i] == '-'
    ensures !FloatSyntax(s)
  {
    var u := if s[0] == '-' then s[1..] else s;
    var j := if s[0] == '-' then i - 1 else i;
    assert u[j] == '-' && !IsDigit(u[j]);
    var d := DotIndex(u);
    if j < d {
      assert u[..d][j] == u[j];
    } else if j > d {
      assert u[d + 1..][j - d - 1] == u[j];
    }
  }

  // ---------------------------------------------------------------------
  // parse_data
  // ---------------------------------------------------------------------

  /** The dictionary `parse_data` returns: four floats and six verbatim tokens. */
  datatype Reading = Reading(
    p: real, t: real, mv: real, sh: real,
    f: string, m: string, esd: string, estado: string, relief: string, purge: string)

  /** The ten captured texts of a line, in pattern order. */
  datatype Fields = Fields(
    p: string, t: string, mv: string, sh: string,
    f: string, m: string, esd: string, estado: string, relief: string, purge: string)
  {
    function Groups(): seq<string> {
      [p, t, mv, sh, f, m, esd, estado, relief, purge]
    }

    /** Each text is a non-empty run of its group's class. */
    predicate WellFormed() {
      GroupsFit(Grammar, Groups())
    }

    predicate Numeric() {
      FloatSyntax(p) && FloatSyntax(t) && FloatSyntax(mv) && FloatSyntax(sh)
    }

    /** The wire line carrying these texts. */
    function Line(): string {
      Render(Grammar, Groups())
    }

    function ToReading(): Reading
      requires Numeric()
    {
      Reading(FloatValue(p), FloatValue(t), FloatValue(mv), FloatValue(sh),
              f, m, esd, estado, relief, purge)
    }
  }

  function FieldsOf(gs: seq<string>): (fs: Fields)
    requires |gs| == 10
    ensures fs.Groups() == gs
  {
    Fields(gs[0], gs[1], gs[2], gs[3], gs[4], gs[5], gs[6], gs[7], gs[8], gs[9])
  }

  /**
   * `parse_data`: the leftmost match's groups, with the four numeric ones
   * converted; `None` when nothing matches or a conversion fails. Any
   * record it returns carries tokens of the pattern's classes, so the
   * state text is non-empty and never holds a comma.
   */
  function ParseData(line: string): (r: Option<Reading>)
    ensures r.Some? ==> AllIn(r.value.estado, StateText) && r.value.estado != []
    ensures r.Some? ==> ',' !in r.value.estado
    ensures r.Some? ==>
      forall w :: w in [r.value.f, r.value.m, r.value.esd, r.value.relief, r.value.purge] ==>
        w != [] && AllIn(w, Word)
  {
    match Search(line)
    case None => None
    case Some(found) =>
      var fs := FieldsOf(found.groups);
      if fs.Numeric() then
        FoundTokens(fs);
        Some(fs.ToReading())
      else None
  }

  /** A run of any group class holds no comma. */
  lemma NoComma(s: string, k: CharClass)
    requires AllIn(s, k)
    ensures ',' !in s
  {
    CommaInNoClass(k);
    forall i | 0 <= i < |s|
      ensures s[i] != ','
    {
      assert InClass(s[i], k);
    }
  }

  /** The tokens of well-formed fields are non-empty runs of their classes, free of commas. */
  lemma FoundTokens(fs: Fields)
    requires fs.WellFormed()
    ensures AllIn(fs.estado, StateText) && fs.estado != [] && ',' !in fs.estado
    ensures forall w :: w in [fs.f, fs.m, fs.esd, fs.relief, fs.purge] ==> w != [] && AllIn(w, Word)
  {
    var gs := fs.Groups();
    assert gs[7] != [] && AllIn(gs[7], Grammar[7].cls);
    NoComma(fs.estado, StateText);
    assert gs[4] != [] && AllIn(gs[4], Grammar[4].cls);
    assert gs[5] != [] && AllIn(gs[5], Grammar[5].cls);
    assert gs[6] != [] && AllIn(gs[6], Grammar[6].cls);
    assert gs[8] != [] && AllIn(gs[8], Grammar[8].cls);
    assert gs[9] != [] && AllIn(gs[9], Grammar[9].cls);
  }

  /** A line carrying well-formed fields parses back to their converted values. */
  lemma ParseRoundTrip(fs: Fields, rest: string)
    requires fs.WellFormed() && fs.Numeric()
    requires rest == [] || !IsWordChar(rest[0])
    ensures ParseData(fs.Line() + rest) == Some(fs.ToReading())
  {
    var line := fs.Line() + rest;
    GrammarChained();
    MatchFieldsRoundTrip(Grammar, fs.Groups(), rest);
    assert line[0..] == line;
    assert Search(line) == Some(Match(0, fs.Groups()));
    assert FieldsOf(fs.Groups()) == fs;
  }

  /**
   * A line whose leftmost match has a numeric group `float()` rejects
   * yields `None`; the search does not go on to a later position.
   */
  lemma ParseRejectsBadNumber(fs: Fields, rest: string)
    requires fs.WellFormed() && !fs.Numeric()
    ensures ParseData(fs.Line() + rest) == None
  {
    var line := fs.Line() + rest;
    GrammarChained();
    MatchFieldsComplete(Grammar, fs.Groups(), rest);
    assert line[0..] == line;
    var gs := MatchFields(line, Grammar).value;
    assert Search(line) == Some(Match(0, gs));
    var head := fs.Groups()[..9];
    assert gs[..9] == head;
    assert gs[0] == head[0] == fs.p;
    assert gs[1] == head[1] == fs.t;
    assert gs[2] == head[2] == fs.mv;
    assert gs[3] == head[3] == fs.sh;
    assert !FieldsOf(gs).Numeric();
  }

  /** The case "P:1-2,...": a '-' inside a numeric group rejects the whole line. */
  lemma ParseRejectsInnerMinus(fs: Fields, rest: string, i: nat)
    requires fs.WellFormed() && 0 < i < |fs.p| && fs.p[i] == '-'
    ensures ParseData(fs.Line() + rest) == None
  {
    FloatRejectsInnerMinus(fs.p, i);
    ParseRejectsBadNumber(fs, rest);
  }

  /** A line with no match anywhere yields `None`. */
  lemma ParseNoMatch(line: string)
    requires forall j :: 0 <= j <= |line| ==> !MatchesAt(line, Grammar, j)
    ensures ParseData(line) == None
  {
    var r := Search(line);
    assert r.Some? ==> MatchesAt(line, Grammar, r.value.pos);
  }
}

/** The line protocol on a sample status line. */
module LineProtocolExamples {
  import opened Wrappers
  import opened Decimal
  import opened LineProtocol

  const Nominal: Fields := Fields(
    "300.5", "150.2", "45.0", "10.0", "A", "AUTO", "Normal", "Operando Normal", "Cerrada", "Cerrada")

  lemma WordFits(w: string)
    requires forall i :: 0 <= i < |w| ==> 'A' <= w[i] <= 'Z' || 'a' <= w[i] <= 'z'
    ensures AllIn(w, Word) && AllIn(w, StateText)
  {
    forall i | 0 <= i < |w|
      ensures IsWordChar(w[i])
    {
      AsciiWordChar(w[i]);
    }
  }

  lemma NumberFits(s: string)
    requires forall i :: 0 <= i < |s| ==> '0' <= s[i] <= '9' || s[i] == '.'
    ensures AllIn(s, Number)
  {
    forall i | 0 <= i < |s|
      ensures InClass(s[i], Number)
    {
      if s[i] != '.' {
        InRangesAt(s[i], Digits, 0);
      }
    }
  }

  lemma StateFits(s: string, a: string, b: string)
    requires s == a + " " + b && AllIn(a, StateText) && AllIn(b, StateText)
    ensures AllIn(s, StateText)
  {
    InRangesAt(' ', SpaceRanges, 1);
    forall i | 0 <= i < |s|
      ensures InClass(s[i], StateText)
    {
      if i < |a| {
        assert s[i] == a[i];
      } else if i > |a| {
        assert s[i] == b[i - |a| - 1];
      }
    }
  }

  lemma NominalWellFormed()
    ensures Nominal.WellFormed()
  {
    var n := Nominal;
    NumberFits(n.p);
    NumberFits(n.t);
    NumberFits(n.mv);
    NumberFits(n.sh);
    WordFits(n.f);
    WordFits(n.m);
    WordFits(n.esd);
    WordFits(n.relief);
    WordFits(n.purge);
    WordFits("Operando");
    WordFits("Normal");
    StateFits(n.estado, "Operando", "Normal");
    var gs := n.Groups();
    forall i | 0 <= i < 10
      ensures gs[i] != [] && AllIn(gs[i], Grammar[i].cls)
    {
    }
  }

  lemma Pressure(s: string)
    requires s == "300.5"
    ensures FloatSyntax(s) && FloatValue(s) == 300.5
  {
    var whole, frac := s[..3], s[4..];
    assert whole == "300" && frac == "5";
    assert DigitsValue("300") == 300 by {
      assert "300"[..2] == "30" && "30"[..1] == "3";
    }
    assert DigitsValue(frac) == 5 && Pow10(1) == 10;
    FloatOfPointed(whole, frac);
    assert s == whole + "." + frac;
  }

  lemma Temperature(s: string)
    requires s == "150.2"
    ensures FloatSyntax(s) && FloatValue(s) == 150.2
  {
    var whole, frac := s[..3], s[4..];
    assert whole == "150" && frac == "2";
    assert DigitsValue("150") == 150 by {
      assert "150"[..2] == "15" && "15"[..1] == "1";
    }
    assert DigitsValue(frac) == 2 && Pow10(1) == 10;
    FloatOfPointed(whole, frac);
    assert s == whole + "." + frac;
  }

  lemma Opening(s: string)
    requires s == "45.0"
    ensures FloatSyntax(s) && FloatValue(s) == 45.0
  {
    var whole, frac := s[..2], s[3..];
    assert whole == "45" && frac == "0";
    assert DigitsValue("45") == 45 by {
      assert "45"[..1] == "4";
    }
    assert DigitsValue(frac) == 0 && Pow10(1) == 10;
    FloatOfPointed(whole, frac);
    assert s == whole + "." + frac;
  }

  lemma Superheat(s: string)
    requires s == "10.0"
    ensures FloatSyntax(s) && FloatValue(s) == 10.0
  {
    var whole, frac := s[..2], s[3..];
    assert whole == "10" && frac == "0";
    assert DigitsValue("10") == 10 by {
      assert "10"[..1] == "1";
    }
    assert DigitsValue(frac) == 0 && Pow10(1) == 10;
    FloatOfPointed(whole, frac);
    assert s == whole + "." + frac;
  }

  /** The status line parses to its ten values. */
  lemma ParseNominalLine()
    ensures ParseData(Nominal.Line()) == Some(Reading(300.5, 150.2, 45.0, 10.0, "A", "AUTO", "Normal", "Operando Normal", "Cerrada", "Cerrada"))
  {
    NominalWellFormed();
    NominalReading();
    ParseRoundTrip(Nominal, "");
    assert Nominal.Line() + "" == Nominal.Line();
  }

  /** The four numeric texts of the status line convert to their values. */
  lemma NominalReading()
    ensures Nominal.Numeric()
    ensures Nominal.ToReading() == Reading(300.5, 150.2, 45.0, 10.0, "A", "AUTO", "Normal", "Operando Normal", "Cerrada", "Cerrada")
  {
    Pressure(Nominal.p);
    Temperature(Nominal.t);
    Opening(Nominal.mv);
    Superheat(Nominal.sh);
  }
}
