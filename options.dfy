/**
 * The parts of `struct cfg` the model uses, with the operations that read
 * or update it: the defaults parse_options starts from, the `-T` monitor
 * selection, the `-L` level-colour parsing, and color_for_level.
 */
module Options {
  import opened Common
  import opened LevelColors
  import Monitors

  const MaxLevelColors := 100

  class Config {
    /** Index of cfg->monitor in the catalogue. */
    var monitor: nat
    var device: Option<string>
    var format: Option<string>
    var color: string
    var interval: int
    /** The fixed array cfg->level_colors and its fill count cfg->n_level_colors. */
    var levelColors: array<LevelColor>
    var nLevelColors: int

    ghost predicate Valid()
      reads this
    {
      levelColors.Length == MaxLevelColors && 0 <= nLevelColors <= MaxLevelColors
      && monitor < |Monitors.Monitors|
    }

    /** The level-colour table in force: the filled prefix of the array. */
    ghost function Entries(): seq<LevelColor>
      reads this, levelColors
      requires Valid()
    {
      levelColors[..nLevelColors]
    }

    /** The defaults parse_options sets before reading any option. */
    constructor ()
      ensures Valid() && fresh(levelColors)
      ensures monitor == 0 && format == Monitors.Monitors[0].defaultFormat
      ensures device == Monitors.Monitors[0].defaultDevice
      ensures color == "green" && interval == 1 && Entries() == []
    {
      monitor := 0;
      format := Monitors.Monitors[0].defaultFormat;
      device := Monitors.Monitors[0].defaultDevice;
      color := "green";
      interval := 1;
      levelColors := new LevelColor[MaxLevelColors](_ => LevelColor(0.0, ""));
      nLevelColors := 0;
    }

    /** color_for_level, a search of the filled entries. */
    method ColorForLevel(level: real) returns (c: string)
      requires Valid()
      ensures c == SelectColor(level, Entries(), color)
    {
      if nLevelColors == 0 {
        return color;
      }
      ghost var table := Entries();
      var i := 0;
      // the source's `for` returns at the first i whose successor's level exceeds `level`
      while i < nLevelColors - 1 && levelColors[i + 1].level <= level
        invariant 0 <= i < nLevelColors
        invariant forall j :: 1 <= j <= i ==> levelColors[j].level <= level
      {
        i := i + 1;
      }
      Thresholds.FirstRiseUnique(Levels(table), level, i);
      c := levelColors[i].color;
    }

    /**
     * The `-T` option: select the first catalogue entry whose name matches
     * case-insensitively and take its default format and device; an unknown
     * name changes nothing and only warns.
     */
    method SelectMonitor(name: string) returns (warned: bool)
      requires Valid()
      modifies this`monitor, this`format, this`device
      ensures Valid()
      ensures warned <==> forall j :: 0 <= j < |Monitors.Monitors| ==> !Monitors.SameIgnoringCase(name, Monitors.Monitors[j].name)
      ensures warned ==> monitor == old(monitor) && format == old(format) && device == old(device)
      ensures !warned ==>
        && Monitors.SameIgnoringCase(name, Monitors.Monitors[monitor].name)
        && (forall j :: 0 <= j < monitor ==> !Monitors.SameIgnoringCase(name, Monitors.Monitors[j].name))
        && format == Monitors.Monitors[monitor].defaultFormat
        && device == Monitors.Monitors[monitor].defaultDevice
    {
      var i := Monitors.FindMonitor(name);
      if i < |Monitors.Monitors| {
        monitor := i;
        format := Monitors.Monitors[i].defaultFormat;
        device := Monitors.Monitors[i].defaultDevice;
      }
      warned := i == |Monitors.Monitors|;
    }

    /**
     * parse_level_colors: split the option on " :,;", take the tokens as
     * level/colour pairs and append them after the existing entries until the
     * array is full.  A trailing level without a colour is written into the
     * next slot's level but not counted.
     */
    method ParseLevelColors(s: CString, atof: string -> real)
      requires Valid()
      modifies this`nLevelColors, levelColors
      ensures Valid()
      ensures var added := Min(|Tokens(s)| / 2, MaxLevelColors - old(nLevelColors));
        nLevelColors == old(nLevelColors) + added
        && Entries() == old(Entries()) + Pairs(Tokens(s), atof)[..added]
      ensures forall j :: nLevelColors < j < MaxLevelColors ==> levelColors[j] == old(levelColors[j])
      ensures nLevelColors < MaxLevelColors ==>
        levelColors[nLevelColors] ==
          if |Tokens(s)| % 2 == 1
          then old(levelColors[..])[nLevelColors].(level := atof(Tokens(s)[|Tokens(s)| - 1]))
          else old(levelColors[..])[nLevelColors]
    {
      var toks := Tokens(s);
      ghost var pairs := Pairs(toks, atof);
      ghost var n0 := nLevelColors;
      var t := 0;
      while true
        invariant n0 <= nLevelColors <= MaxLevelColors
        invariant t == 2 * (nLevelColors - n0) <= |toks|
        invariant levelColors[..nLevelColors] == old(levelColors[..n0]) + pairs[..nLevelColors - n0]
        invariant forall j :: nLevelColors <= j < MaxLevelColors ==> levelColors[j] == old(levelColors[j])
        decreases |toks| - t
      {
        if nLevelColors == MaxLevelColors {
          break;
        }
        if t == |toks| {
          break;
        }
        levelColors[nLevelColors] := levelColors[nLevelColors].(level := atof(toks[t]));
        t := t + 1;
        if t == |toks| {
          break;
        }
        levelColors[nLevelColors] := levelColors[nLevelColors].(color := toks[t]);
        assert pairs[nLevelColors - n0] == levelColors[nLevelColors];
        assert pairs[..nLevelColors - n0 + 1] == pairs[..nLevelColors - n0] + [pairs[nLevelColors - n0]];
        nLevelColors := nLevelColors + 1;
        t := t + 1;
      }
    }
  }
}
