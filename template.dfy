/**
 * format_io_stats and format_usage_stats: expand a `%x` template into a
 * caller buffer of maxsize characters (the NUL included).  The two source
 * functions run the same loop and differ only in the directive letters they
 * recognise and the numbers those stand for, so the loop is ExpandInto and
 * each function supplies its directive table.
 */
module Template {
  import opened Common
  import opened NumberFormat

  /** Every `%` has a directive character after it: the template does not end in a lone `%`. */
  predicate PercentsPaired(f: string)
    decreases |f|
  {
    if f == [] then true
    else if f[0] != '%' then PercentsPaired(f[1..])
    else |f| >= 2 && PercentsPaired(f[2..])
  }

  /**
   * The text the expansion writes with m payload slots left: literals cost one
   * slot each; a directive not in d stands for its own character; a directive
   * text that does not fit in the m slots left gives its first m - 1
   * characters and uses up the budget.
   */
  function Expand(f: string, m: nat, d: map<char, CString>): (r: string)
    requires PercentsPaired(f)
    ensures |r| <= m
    decreases |f|
  {
    if f == [] || m == 0 then []
    else if f[0] != '%' then [f[0]] + Expand(f[1..], m - 1, d)
    else if f[1] !in d then [f[1]] + Expand(f[2..], m - 1, d)
    else if |d[f[1]]| < m then d[f[1]] + Expand(f[2..], m - |d[f[1]]|, d)
    else d[f[1]][..m - 1]
  }

  /** The expansion with no buffer limit. */
  function Unbounded(f: string, d: map<char, CString>): string
    requires PercentsPaired(f)
    decreases |f|
  {
    if f == [] then []
    else if f[0] != '%' then [f[0]] + Unbounded(f[1..], d)
    else if f[1] !in d then [f[1]] + Unbounded(f[2..], d)
    else d[f[1]] + Unbounded(f[2..], d)
  }

  /** The bounded expansion only ever cuts the unbounded one short. */
  lemma {:induction false} ExpandIsPrefix(f: string, m: nat, d: map<char, CString>)
    requires PercentsPaired(f)
    ensures Expand(f, m, d) <= Unbounded(f, d)
    decreases |f|
  {
    if f == [] || m == 0 {
    } else if f[0] != '%' {
      ExpandIsPrefix(f[1..], m - 1, d);
    } else if f[1] !in d {
      ExpandIsPrefix(f[2..], m - 1, d);
    } else if |d[f[1]]| < m {
      ExpandIsPrefix(f[2..], m - |d[f[1]]|, d);
    }
  }

  /** When the whole expansion is shorter than the budget, nothing is cut. */
  lemma {:induction false} ExpandWhenFits(f: string, m: nat, d: map<char, CString>)
    requires PercentsPaired(f) && |Unbounded(f, d)| < m
    ensures Expand(f, m, d) == Unbounded(f, d)
    decreases |f|
  {
    if f == [] {
    } else if f[0] != '%' {
      ExpandWhenFits(f[1..], m - 1, d);
    } else if f[1] !in d {
      ExpandWhenFits(f[2..], m - 1, d);
    } else {
      ExpandWhenFits(f[2..], m - |d[f[1]]|, d);
    }
  }

  /** A cut expansion leaves at most one of its m slots unused. */
  lemma {:induction false} ExpandFillsBudget(f: string, m: nat, d: map<char, CString>)
    requires PercentsPaired(f) && Expand(f, m, d) != Unbounded(f, d)
    ensures |Expand(f, m, d)| >= m - 1
    decreases |f|
  {
    if f == [] || m == 0 {
    } else if f[0] != '%' {
      ExpandFillsBudget(f[1..], m - 1, d);
    } else if f[1] !in d {
      ExpandFillsBudget(f[2..], m - 1, d);
    } else if |d[f[1]]| < m {
      ExpandFillsBudget(f[2..], m - |d[f[1]]|, d);
    }
  }

  /** A template without `%` is copied verbatim, as far as the budget allows. */
  lemma {:induction false} LiteralsCopied(f: string, m: nat, d: map<char, CString>)
    requires '%' !in f
    ensures PercentsPaired(f) && Expand(f, m, d) == f[..Min(|f|, m)]
    decreases |f|
  {
    if f != [] {
      assert f[0] in f;
      assert forall i :: 0 <= i < |f| - 1 ==> f[1..][i] == f[i + 1];
      LiteralsCopied(f[1..], if m == 0 then 0 else m - 1, d);
    }
  }

  /** `%` followed by a character that is not a directive gives that character alone: "%%" gives "%". */
  lemma UnknownDirective(c: char, rest: string, m: nat, d: map<char, CString>)
    requires c !in d && PercentsPaired(rest) && m >= 1
    ensures PercentsPaired(['%', c] + rest)
    ensures Expand(['%', c] + rest, m, d) == [c] + Expand(rest, m - 1, d)
  {
    assert (['%', c] + rest)[2..] == rest;
  }

  /**
   * A directive text at least as long as the budget m contributes exactly
   * m - 1 characters and ends the expansion.
   */
  lemma DirectiveCut(c: char, rest: string, m: nat, d: map<char, CString>)
    requires c in d && PercentsPaired(rest) && 1 <= m <= |d[c]|
    ensures PercentsPaired(['%', c] + rest)
    ensures Expand(['%', c] + rest, m, d) == d[c][..m - 1]
  {
    assert (['%', c] + rest)[2..] == rest;
  }

  /** So a text that would exactly fill the slots left loses its last character. */
  lemma ExactFitDropsLastChar()
    ensures Expand("%i", 3, map['i' := "123"]) == "12"
    ensures Unbounded("%i", map['i' := "123"]) == "123"
  {
    assert "%i"[2..] == [];
  }

  /** One step of Expand at a literal character of f. */
  lemma ExpandLiteralAt(f: string, p: nat, m: nat, d: map<char, CString>)
    requires p < |f| && f[p] != '%' && m > 0 && PercentsPaired(f[p..])
    ensures PercentsPaired(f[p + 1..])
    ensures Expand(f[p..], m, d) == [f[p]] + Expand(f[p + 1..], m - 1, d)
  {
    assert f[p..][1..] == f[p + 1..];
  }

  /** What a `%` followed by c writes with m slots left. */
  function DirectivePiece(c: char, m: nat, d: map<char, CString>): string
    requires m > 0
  {
    if c !in d then [c] else if |d[c]| < m then d[c] else d[c][..m - 1]
  }

  /** The slots left after a `%` followed by c. */
  function BudgetAfter(c: char, m: nat, d: map<char, CString>): nat
    requires m > 0
  {
    if c !in d then m - 1 else if |d[c]| < m then m - |d[c]| else 0
  }

  /** One step of Expand at a `%` of f. */
  lemma ExpandDirectiveAt(f: string, p: nat, m: nat, d: map<char, CString>)
    requires p < |f| && f[p] == '%' && m > 0 && PercentsPaired(f[p..])
    ensures p + 1 < |f| && PercentsPaired(f[p + 2..])
    ensures Expand(f[p..], m, d) ==
      DirectivePiece(f[p + 1], m, d) + Expand(f[p + 2..], BudgetAfter(f[p + 1], m, d), d)
  {
    assert f[p..][2..] == f[p + 2..];
  }

  /**
   * The expansion loop: writes Expand(format, maxsize - 1, d) into buf,
   * then the NUL, and nothing past it.
   */
  method ExpandInto(buf: array<char>, maxsize: int, format: CString, d: map<char, CString>)
    requires 1 <= maxsize <= buf.Length
    requires PercentsPaired(format)
    modifies buf
    ensures var e := Expand(format, maxsize - 1, d);
      |e| < maxsize && buf[..|e|] == e && buf[|e|] == '\0' && buf[|e| + 1..] == old(buf[|e| + 1..])
  {
    ghost var whole := Expand(format, maxsize - 1, d);
    var budget := maxsize - 1;  // one slot is kept for the NUL
    var p, k := 0, 0;
    // the source's `for (; *format; format++) { if (!maxsize) break; ... }`
    while p < |format| && budget != 0
      invariant 0 <= p <= |format| && PercentsPaired(format[p..])
      invariant 0 <= k && 0 <= budget && k + budget <= maxsize - 1
      invariant buf[..k] + Expand(format[p..], budget, d) == whole
      invariant forall i :: k <= i < buf.Length ==> buf[i] == old(buf[i])
    {
      p, k, budget := ExpandItem(buf, format, p, k, budget, d);
    }
    assert buf[..k] == whole;
    buf[k] := '\0';
    assert buf[..k] == whole;
  }

  /**
   * One pass of the expansion loop's body at format[p], with k characters
   * written and `budget` slots left: a literal, or a `%` and its directive.
   */
  method ExpandItem(buf: array<char>, format: CString, p: nat, k: nat, budget: nat, d: map<char, CString>)
    returns (p': nat, k': nat, budget': nat)
    requires p < |format| && PercentsPaired(format[p..])
    requires 1 <= budget && k + budget < buf.Length
    modifies buf
    ensures p < p' <= |format| && PercentsPaired(format[p'..])
    ensures k <= k' && k' + budget' <= k + budget
    ensures buf[..k'] + Expand(format[p'..], budget', d) == old(buf[..k]) + Expand(format[p..], budget, d)
    ensures forall i :: k' <= i < buf.Length ==> buf[i] == old(buf[i])
  {
    if format[p] != '%' {
      ExpandLiteralAt(format, p, budget, d);
      buf[k] := format[p];
      assert buf[..k + 1] == old(buf[..k]) + [format[p]];
      p', k', budget' := p + 1, k + 1, budget - 1;
      assert buf[..k'] + Expand(format[p'..], budget', d)
          == old(buf[..k]) + ([format[p]] + Expand(format[p'..], budget', d));
    } else {
      ExpandDirectiveAt(format, p, budget, d);
      k', budget' := ExpandDirective(buf, format[p + 1], k, budget, d);
      p' := p + 2;
      assert buf[..k'] + Expand(format[p'..], budget', d)
          == old(buf[..k]) + (DirectivePiece(format[p + 1], budget, d) + Expand(format[p'..], budget', d));
    }
  }

  /** The `switch` on the character after a `%`: a directive's text, or the character itself. */
  method ExpandDirective(buf: array<char>, c: char, k: nat, budget: nat, d: map<char, CString>)
    returns (k': nat, budget': nat)
    requires 1 <= budget && k + budget < buf.Length
    modifies buf
    ensures k <= k' && k' + budget' <= k + budget
    ensures buf[..k'] == old(buf[..k]) + DirectivePiece(c, budget, d)
    ensures budget' == BudgetAfter(c, budget, d)
    ensures forall i :: k' <= i < buf.Length ==> buf[i] == old(buf[i])
  {
    if c !in d {
      buf[k] := c;
      assert buf[..k + 1] == buf[..k] + [c];
      k', budget' := k + 1, budget - 1;
    } else {
      k', budget' := CopyDirectiveText(buf, k, budget, d[c]);
    }
  }

  /**
   * The copy of a directive text into buf at k with `budget` slots left,
   * under the source's `*s && --maxsize`: a text shorter than the budget is
   * copied whole; a longer one gives its first budget - 1 characters and
   * leaves no budget.
   */
  method CopyDirectiveText(buf: array<char>, k: nat, budget: nat, text: CString)
    returns (k': nat, budget': nat)
    requires 1 <= budget && k + budget < buf.Length
    modifies buf
    ensures k <= k' && k' + budget' <= k + budget
    ensures |text| < budget ==> budget' == budget - |text| && buf[..k'] == old(buf[..k]) + text
    ensures budget <= |text| ==> budget' == 0 && buf[..k'] == old(buf[..k]) + text[..budget - 1]
    ensures forall i :: k' <= i < buf.Length ==> buf[i] == old(buf[i])
  {
    k', budget' := k, budget;
    var j := 0;
    while j < |text| && budget' > 1
      invariant 0 <= j <= |text| && budget' == budget - j && 1 <= budget'
      invariant k' == k + j
      invariant buf[..k'] == old(buf[..k]) + text[..j]
      invariant forall i :: k' <= i < buf.Length ==> buf[i] == old(buf[i])
    {
      buf[k'] := text[j];
      assert text[..j + 1] == text[..j] + [text[j]];
      assert buf[..k' + 1] == buf[..k'] + [text[j]];
      k', j, budget' := k' + 1, j + 1, budget' - 1;
    }
    if j < |text| {
      budget' := budget' - 1;  // the decrement that ended the copy
    } else {
      assert text[..j] == text;
    }
  }

  /** An I/O snapshot turned into rates: bytes (or events) per second in each direction. */
  datatype IoStats = IoStats(inbound: real, outbound: real)

  /** A capacity snapshot: free and total bytes. */
  datatype UsageStats = UsageStats(free: real, total: real)

  /** format_io_stats' switch: %i the in rate, %o the out rate, %t their sum. */
  function IoDirectives(stats: IoStats, printf: (string, real) -> CString): map<char, CString>
  {
    map['i' := NumberText(stats.inbound, printf),
        'o' := NumberText(stats.outbound, printf),
        't' := NumberText(stats.inbound + stats.outbound, printf)]
  }

  /**
   * format_usage_stats' switch: %f free, %u used, %t total as numbers, %F and
   * %U the free and used percentages; `percent(part, whole)` is the one-decimal
   * rendering of 100 * part / whole.
   */
  function UsageDirectives(stats: UsageStats, printf: (string, real) -> CString,
                           percent: (real, real) -> CString): map<char, CString>
  {
    var used := stats.total - stats.free;
    map['f' := NumberText(stats.free, printf),
        'F' := Truncate(percent(stats.free, stats.total), MaxFormattedNumberSize - 1),
        'u' := NumberText(used, printf),
        'U' := Truncate(percent(used, stats.total), MaxFormattedNumberSize - 1),
        't' := NumberText(stats.total, printf)]
  }

  /** Every io directive text fits a MaxFormattedNumberSize buffer, and `%` is not a directive. */
  lemma IoDirectiveTexts(stats: IoStats, printf: (string, real) -> CString)
    ensures var d := IoDirectives(stats, printf);
      d.Keys == {'i', 'o', 't'} && forall c | c in d :: |d[c]| < MaxFormattedNumberSize
  {
  }

  /** Every usage directive text fits a MaxFormattedNumberSize buffer, and `%` is not a directive. */
  lemma UsageDirectiveTexts(stats: UsageStats, printf: (string, real) -> CString,
                            percent: (real, real) -> CString)
    ensures var d := UsageDirectives(stats, printf, percent);
      d.Keys == {'f', 'F', 'u', 'U', 't'} && forall c | c in d :: |d[c]| < MaxFormattedNumberSize
  {
  }

  method FormatIoStats(buf: array<char>, maxsize: int, format: CString, stats: IoStats,
                       printf: (string, real) -> CString)
    requires 1 <= maxsize <= buf.Length
    requires PercentsPaired(format)
    modifies buf
    ensures var e := Expand(format, maxsize - 1, IoDirectives(stats, printf));
      |e| < maxsize && buf[..|e|] == e && buf[|e|] == '\0' && buf[|e| + 1..] == old(buf[|e| + 1..])
  {
    ExpandInto(buf, maxsize, format, IoDirectives(stats, printf));
  }

  method FormatUsageStats(buf: array<char>, maxsize: int, format: CString, stats: UsageStats,
                          printf: (string, real) -> CString, percent: (real, real) -> CString)
    requires 1 <= maxsize <= buf.Length
    requires PercentsPaired(format)
    modifies buf
    ensures var e := Expand(format, maxsize - 1, UsageDirectives(stats, printf, percent));
      |e| < maxsize && buf[..|e|] == e && buf[|e|] == '\0' && buf[|e| + 1..] == old(buf[|e| + 1..])
  {
    ExpandInto(buf, maxsize, format, UsageDirectives(stats, printf, percent));
  }
}
