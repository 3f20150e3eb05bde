/**
 * The level-colour table: ordered (level, colour) pairs, the lookup
 * color_for_level performs on them, and the `level:colour,...` syntax
 * parse_level_colors reads them from.
 */
module LevelColors {
  import opened Common
  import Thresholds

  datatype LevelColor = LevelColor(level: real, color: string)

  function Levels(table: seq<LevelColor>): (ls: seq<real>)
    ensures |ls| == |table| && forall i :: 0 <= i < |table| ==> ls[i] == table[i].level
  {
    seq(|table|, i requires 0 <= i < |table| => table[i].level)
  }

  /** The entry color_for_level picks from a non-empty table: the first i whose successor's level exceeds `level`, else the last. */
  function ColorIndex(level: real, table: seq<LevelColor>): (i: nat)
    requires table != []
    ensures i < |table|
  {
    Thresholds.FirstRise(Levels(table), level)
  }

  /** color_for_level: the picked entry's colour, or `default` (cfg->color) for an empty table. */
  function SelectColor(level: real, table: seq<LevelColor>, default: string): string
  {
    if table == [] then default else table[ColorIndex(level, table)].color
  }

  ghost predicate SortedByLevel(table: seq<LevelColor>)
  {
    forall a, b :: 0 <= a <= b < |table| ==> table[a].level <= table[b].level
  }

  /** A level below every threshold gets the FIRST entry's colour, sorted table or not. */
  lemma SelectBelowAll(level: real, table: seq<LevelColor>, default: string)
    requires table != [] && forall i :: 0 <= i < |table| ==> level < table[i].level
    ensures SelectColor(level, table, default) == table[0].color
  {
    Thresholds.FirstRiseBelowAll(Levels(table), level);
  }

  /** A one-entry table always yields its entry; an empty one the default. */
  lemma SelectDegenerate(level: real, entry: LevelColor, default: string)
    ensures SelectColor(level, [entry], default) == entry.color
    ensures SelectColor(level, [], default) == default
  {
  }

  /**
   * On a table sorted by level, a level at or above the first threshold gets
   * the colour of the LAST entry whose threshold is at most the level.
   */
  lemma SelectSorted(level: real, table: seq<LevelColor>)
    requires table != [] && SortedByLevel(table) && table[0].level <= level
    ensures var i := ColorIndex(level, table);
      table[i].level <= level && forall j :: i < j < |table| ==> level < table[j].level
  {
    Thresholds.FirstRiseAscending(Levels(table), level);
  }

  /** The green / yellow / red example: 0 and 49.9 are green, 50 yellow, 100 red. */
  lemma TrafficLights()
    ensures var t := [LevelColor(0.0, "green"), LevelColor(50.0, "yellow"), LevelColor(80.0, "red")];
      && SelectColor(0.0, t, "blue") == "green"
      && SelectColor(49.9, t, "blue") == "green"
      && SelectColor(50.0, t, "blue") == "yellow"
      && SelectColor(100.0, t, "blue") == "red"
      && SelectColor(-5.0, [], "blue") == "blue"
  {
    var t := [LevelColor(0.0, "green"), LevelColor(50.0, "yellow"), LevelColor(80.0, "red")];
    Thresholds.FirstRiseUnique(Levels(t), 0.0, 0);
    Thresholds.FirstRiseUnique(Levels(t), 49.9, 0);
    Thresholds.FirstRiseUnique(Levels(t), 50.0, 1);
    Thresholds.FirstRiseUnique(Levels(t), 100.0, 2);
  }

  /** The delimiter set " :,;" handed to strtok_r. */
  predicate IsDelimiter(c: char)
  {
    c == ' ' || c == ':' || c == ',' || c == ';'
  }

  predicate NoDelimiter(s: string)
  {
    forall i :: 0 <= i < |s| ==> !IsDelimiter(s[i])
  }

  /** The length of the run of non-delimiters that starts s. */
  function TokenLength(s: string): (n: nat)
    ensures n <= |s| && NoDelimiter(s[..n])
    ensures n < |s| ==> IsDelimiter(s[n])
  {
    if s == [] || IsDelimiter(s[0]) then 0 else 1 + TokenLength(s[1..])
  }

  /** What successive strtok_r calls return: the maximal runs of non-delimiters, in order. */
  function Tokens(s: string): (toks: seq<string>)
    ensures forall i :: 0 <= i < |toks| ==> toks[i] != [] && NoDelimiter(toks[i])
    ensures toks == [] <==> forall i :: 0 <= i < |s| ==> IsDelimiter(s[i])
    decreases |s|
  {
    if s == [] then []
    else if IsDelimiter(s[0]) then Tokens(s[1..])
    else
      var n := TokenLength(s);
      [s[..n]] + Tokens(s[n..])
  }

  /** Tokens consumed two at a time: a level (through atof) and a colour; an odd last token is dropped. */
  function Pairs(toks: seq<string>, atof: string -> real): (ps: seq<LevelColor>)
  {
    seq(|toks| / 2, i requires 0 <= i < |toks| / 2 => LevelColor(atof(toks[2 * i]), toks[2 * i + 1]))
  }

  /** The tokens separated by one delimiter character each. */
  function Join(toks: seq<string>, sep: char): string
  {
    if toks == [] then []
    else if |toks| == 1 then toks[0]
    else toks[0] + [sep] + Join(toks[1..], sep)
  }

  /** A token followed by nothing or by a delimiter is split off whole. */
  lemma {:induction false} TokenLengthOf(t: string, tail: string)
    requires NoDelimiter(t) && (tail == [] || IsDelimiter(tail[0]))
    ensures TokenLength(t + tail) == |t|
    decreases |t|
  {
    if t != [] {
      assert (t + tail)[1..] == t[1..] + tail;
      TokenLengthOf(t[1..], tail);
    }
  }

  /** A run of delimiters, of any mix and length, produces no token. */
  lemma {:induction false} TokensSkipRun(p: string, s: string)
    requires forall i :: 0 <= i < |p| ==> IsDelimiter(p[i])
    ensures Tokens(p + s) == Tokens(s)
    decreases |p|
  {
    if p != [] {
      assert (p + s)[0] == p[0] && (p + s)[1..] == p[1..] + s;
      assert Tokens(p + s) == Tokens(p[1..] + s);
      TokensSkipRun(p[1..], s);
    } else {
      assert p + s == s;
    }
  }

  /** A token ended by a delimiter is the first token; scanning resumes after that delimiter. */
  lemma TokensCons(t: string, d: char, r: string)
    requires t != [] && NoDelimiter(t) && IsDelimiter(d)
    ensures Tokens(t + [d] + r) == [t] + Tokens(r)
  {
    var s := t + [d] + r;
    TokenLengthOf(t, [d] + r);
    assert s == t + ([d] + r);
    assert s[..|t|] == t && s[|t|..] == [d] + r;
    assert ([d] + r)[1..] == r;
  }

  /** A lone token forms the whole token list. */
  lemma TokensSingle(t: string)
    requires t != [] && NoDelimiter(t)
    ensures Tokens(t) == [t]
  {
    TokenLengthOf(t, []);
    assert t + [] == t && t[..|t|] == t && t[|t|..] == [];
  }

  /** The documented syntax "level:colour,level:colour", with a space allowed after the comma. */
  lemma TokensOfTwoPairs(l1: string, c1: string, l2: string, c2: string)
    requires l1 != [] && NoDelimiter(l1) && c1 != [] && NoDelimiter(c1)
    requires l2 != [] && NoDelimiter(l2) && c2 != [] && NoDelimiter(c2)
    ensures Tokens(l1 + ":" + c1 + ", " + l2 + ":" + c2) == [l1, c1, l2, c2]
  {
    var r2 := c1 + [','] + ([' '] + (l2 + [':'] + c2));
    TwoPairsShape(l1, c1, l2, c2);
    TokensAfterFirstPair(c1, l2, c2);
    TokensCons(l1, ':', r2);
  }

  /** Only regroups the concatenation, for TokensOfTwoPairs. */
  lemma TwoPairsShape(l1: string, c1: string, l2: string, c2: string)
    ensures l1 + ":" + c1 + ", " + l2 + ":" + c2 == l1 + [':'] + (c1 + [','] + ([' '] + (l2 + [':'] + c2)))
  {
  }

  /** The tokens after the first level: a colour, then ", ", then the second pair. */
  lemma TokensAfterFirstPair(c1: string, l2: string, c2: string)
    requires c1 != [] && NoDelimiter(c1)
    requires l2 != [] && NoDelimiter(l2) && c2 != [] && NoDelimiter(c2)
    ensures Tokens(c1 + [','] + ([' '] + (l2 + [':'] + c2))) == [c1, l2, c2]
  {
    var r4 := l2 + [':'] + c2;
    TokensSingle(c2);
    TokensCons(l2, ':', c2);
    TokensSkipRun([' '], r4);
    TokensCons(c1, ',', [' '] + r4);
  }

  /** Splitting undoes joining: non-empty, delimiter-free tokens come back as they went in. */
  lemma {:induction false} TokensOfJoin(toks: seq<string>, sep: char)
    requires IsDelimiter(sep)
    requires forall i :: 0 <= i < |toks| ==> toks[i] != [] && NoDelimiter(toks[i])
    ensures Tokens(Join(toks, sep)) == toks
    decreases |toks|
  {
    if |toks| == 1 {
      TokensSingle(toks[0]);
    } else if |toks| > 1 {
      TokensCons(toks[0], sep, Join(toks[1..], sep));
      TokensOfJoin(toks[1..], sep);
      assert toks == [toks[0]] + toks[1..];
    }
  }
}
