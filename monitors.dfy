/**
 * The monitor catalogue: ten descriptors, each with a name, a description,
 * an optional default device and format, and the optional capabilities
 * (allocate a snapshot, retrieve into it, render) given as tags rather than
 * function pointers.  Also the case-insensitive lookup of the `-T` option.
 */
module Monitors {
  import opened Common

  /** The snapshot shape a monitor allocates (monitor_create_io_stats_data, monitor_type_cpu_create_stats_data). */
  datatype Allocator = IoStatsData | CpuStatsData

  /** The *_retrieve_stats routines. */
  datatype Retriever = CpuRetrieve | CtxtRetrieve | SwapactRetrieve | DiskactRetrieve | NetRetrieve

  /** The *_render routines. */
  datatype Renderer = ClockRender | CpuRender | IoSpeedRender | RunpsRender | MemoryRender | SwapRender | DiskRender

  datatype Monitor = Monitor(
    name: string,
    description: string,
    defaultDevice: Option<string>,
    defaultFormat: Option<string>,
    allocator: Option<Allocator>,
    retriever: Option<Retriever>,
    renderer: Option<Renderer>)

  const Monitors: seq<Monitor> := [
    Monitor("clock", "Simple clock, strftime(3) format", None, Some("%a %b %e %H:%M:%S %G"),
            None, None, Some(ClockRender)),
    Monitor("cpu", "Cpu activity monitor", Some("cpu0"), Some("CPU: %.0f%%"),
            Some(CpuStatsData), Some(CpuRetrieve), Some(CpuRender)),
    Monitor("ctxt", "Context switches per second monitor", None, Some("ctxt: %i switches/s"),
            Some(IoStatsData), Some(CtxtRetrieve), Some(IoSpeedRender)),
    Monitor("runps", "Processes in the RUNNING state monitor", None, Some("procs: %.0f"),
            None, None, Some(RunpsRender)),
    Monitor("mem", "Used memory monitor", None, Some("Mem: %U%%, %uB/%tB"),
            None, None, Some(MemoryRender)),
    Monitor("swap", "Swap usage monitor", None, Some("Swap: %U%%, %uB/%tB"),
            None, None, Some(SwapRender)),
    Monitor("swapact", "Swapping activity monitor", None, Some("swapact: %tB (%iB in/%oB out)"),
            Some(IoStatsData), Some(SwapactRetrieve), Some(IoSpeedRender)),
    Monitor("disk", "Disk usage monitor. Device is some file on the disk I display usage for!",
            Some("/"), Some("Disk: %U%%, %uB/%tB"),
            None, None, Some(DiskRender)),
    Monitor("diskact", "Disk activity monitor", Some("hda"), Some("diskact: %tB (%iB in/%oB out)"),
            Some(IoStatsData), Some(DiskactRetrieve), Some(IoSpeedRender)),
    Monitor("net", "Network activity monitor", Some("eth0"), Some("eth0: %tB (%iB in/%oB out)"),
            Some(IoStatsData), Some(NetRetrieve), Some(IoSpeedRender))
  ]

  /** A monitor that retrieves also allocates the buffers it retrieves into. */
  predicate RetrievesIntoAllocated(m: Monitor)
  {
    m.retriever.Some? ==> m.allocator.Some?
  }

  lemma CatalogueWellFormed()
    ensures |Monitors| == 10
    ensures forall i :: 0 <= i < |Monitors| ==> RetrievesIntoAllocated(Monitors[i])
    ensures forall i :: 0 <= i < |Monitors| ==> Monitors[i].renderer.Some?
  {
  }

  /** tolower in the C locale. */
  function Lower(c: char): char
  {
    if 'A' <= c <= 'Z' then (c as int + 32) as char else c
  }

  /** strcasecmp(a, b) == 0: the same length, and the same characters once lower-cased. */
  predicate SameIgnoringCase(a: string, b: string)
  {
    |a| == |b| && forall i :: 0 <= i < |a| ==> Lower(a[i]) == Lower(b[i])
  }

  /**
   * The loop of the `-T` option: the index of the first monitor whose name
   * matches case-insensitively, or |Monitors| when none does.
   */
  method FindMonitor(name: string) returns (i: nat)
    ensures i <= |Monitors|
    ensures i < |Monitors| ==> SameIgnoringCase(name, Monitors[i].name)
    ensures forall j :: 0 <= j < i ==> !SameIgnoringCase(name, Monitors[j].name)
  {
    i := 0;
    while i < |Monitors| && !SameIgnoringCase(name, Monitors[i].name)
      invariant i <= |Monitors|
      invariant forall j :: 0 <= j < i ==> !SameIgnoringCase(name, Monitors[j].name)
    {
      i := i + 1;
    }
  }

  /** Case-insensitive matching is an equivalence, so a name matches the same entries as any of its re-casings. */
  lemma SameIgnoringCaseEquivalence(a: string, b: string, c: string)
    ensures SameIgnoringCase(a, a)
    ensures SameIgnoringCase(a, b) ==> SameIgnoringCase(b, a)
    ensures SameIgnoringCase(a, b) && SameIgnoringCase(b, c) ==> SameIgnoringCase(a, c)
  {
  }

  predicate LowerCase(s: string)
  {
    forall i :: 0 <= i < |s| ==> 'a' <= s[i] <= 'z'
  }

  /** On lower-case names, matching ignoring case is plain equality. */
  lemma SameIgnoringCaseLower(a: string, b: string)
    requires LowerCase(a) && LowerCase(b)
    ensures SameIgnoringCase(a, b) <==> a == b
  {
    if SameIgnoringCase(a, b) {
      assert forall i :: 0 <= i < |a| ==> a[i] == Lower(a[i]) == Lower(b[i]) == b[i];
    }
  }

  /** Catalogue names are lower-case and pairwise different. */
  lemma NamesDistinct()
    ensures forall i :: 0 <= i < |Monitors| ==> LowerCase(Monitors[i].name)
    ensures forall i, j :: 0 <= i < j < |Monitors| ==> Monitors[i].name != Monitors[j].name
  {
  }

  /**
   * Looking a catalogue entry up by its own name, in any casing, finds that
   * entry: no earlier entry matches it.
   */
  lemma OwnNameSelectsEntry(name: string, k: nat)
    requires k < |Monitors| && SameIgnoringCase(name, Monitors[k].name)
    ensures forall j :: 0 <= j < k ==> !SameIgnoringCase(name, Monitors[j].name)
  {
    NamesDistinct();
    forall j | 0 <= j < k
      ensures !SameIgnoringCase(name, Monitors[j].name)
    {
      if SameIgnoringCase(name, Monitors[j].name) {
        SameIgnoringCaseEquivalence(Monitors[j].name, name, Monitors[k].name);
        SameIgnoringCaseLower(Monitors[j].name, Monitors[k].name);
      }
    }
  }

  /** Upper-case spelling of a catalogue name still selects it. */
  lemma UpperCaseMatches()
    ensures SameIgnoringCase("CPU", Monitors[1].name)
    ensures SameIgnoringCase("Net", Monitors[9].name)
  {
  }
}
