/** The process query: each process that could be read is reported with its
    PID, its name and a best-effort path; a process whose read raised is left
    out without stopping the others. */
module ProcessQuery {
  import opened PyText

  /** The placeholder the fallback chain ends in. */
  const NotAvailable: string := "N/A"

  /** The path shown for a process whose executable and command line are both
      unknown, such as a kernel thread. */
  function Sentinel(name: Option<string>): string {
    "[无法获取路径或内核线程: " + Format(name) + "]"
  }

  /** The fallback chain: the executable path if truthy, else the command line
      joined with spaces if truthy, else "N/A". */
  function Fallback(exe: Option<string>, cmdline: Option<seq<string>>): string {
    if TruthyStr(exe) then exe.value
    else if TruthyList(cmdline) then Join(" ", cmdline.value)
    else NotAvailable
  }

  /** The path reported for a process: the fallback chain, then the sentinel
      for an empty or "N/A" result, then the repair that replaces a relative
      path by an absolute first command-line argument. */
  function ResolvePath(exe: Option<string>, cmdline: Option<seq<string>>, name: Option<string>): (path: string)
    ensures path != "" && path != NotAvailable
  {
    var p := Fallback(exe, cmdline);
    if p == "" || p == NotAvailable then Sentinel(name)
    else if !IsAbs(p) && p != NotAvailable && !StartsWith(p, "[") then
      if TruthyList(cmdline) && IsAbs(cmdline.value[0]) then cmdline.value[0] else p
    else p
  }

  /** With two or more parts, the first separator follows the first part. */
  lemma JoinSeparator(sep: string, parts: seq<string>)
    requires |parts| >= 2
    ensures |parts[0]| + |sep| <= |Join(sep, parts)|
    ensures Join(sep, parts)[|parts[0]|..|parts[0]| + |sep|] == sep
  {
  }

  /** A space-joined list reads "N/A" only when it is the one argument "N/A":
      with two or more arguments the join holds a space. */
  lemma JoinNotAvailable(parts: seq<string>)
    ensures Join(" ", parts) == NotAvailable <==> parts == [NotAvailable]
  {
    if |parts| >= 2 {
      JoinSeparator(" ", parts);
      assert Join(" ", parts)[|parts[0]|] == ' ';
      assert forall k :: 0 <= k < |NotAvailable| ==> NotAvailable[k] != ' ';
    }
  }

  /** The sentinel, which starts with '[', is reported when neither the
      executable nor the command line is known, when the executable reads
      "N/A", and when the command line joins to "" or to "N/A". */
  lemma SentinelCases(exe: Option<string>, cmdline: Option<seq<string>>, name: Option<string>)
    requires || (!TruthyStr(exe) && !TruthyList(cmdline))
             || exe == Some(NotAvailable)
             || (!TruthyStr(exe) && cmdline == Some([""]))
             || (!TruthyStr(exe) && cmdline == Some([NotAvailable]))
    ensures ResolvePath(exe, cmdline, name) == Sentinel(name)
    ensures StartsWith(ResolvePath(exe, cmdline, name), "[")
  {
  }

  /** A truthy executable path other than "N/A" is reported as it is, unless it
      is relative, does not start with '[', and the command line starts with an
      absolute path: then that first argument is reported instead. */
  lemma ExecutablePath(exe: Option<string>, cmdline: Option<seq<string>>, name: Option<string>)
    requires TruthyStr(exe) && exe.value != NotAvailable
    ensures var repaired := !IsAbs(exe.value) && !StartsWith(exe.value, "[") &&
                            TruthyList(cmdline) && IsAbs(cmdline.value[0]);
            ResolvePath(exe, cmdline, name) == if repaired then cmdline.value[0] else exe.value
  {
  }

  /** Without an executable path, a command line that joins to something other
      than "" and "N/A" is reported as exactly that join: the repair never fires,
      since an absolute first argument makes the join absolute too. */
  lemma CommandLinePath(exe: Option<string>, cmdline: Option<seq<string>>, name: Option<string>)
    requires !TruthyStr(exe) && TruthyList(cmdline)
    requires cmdline.value != [""] && cmdline.value != [NotAvailable]
    ensures ResolvePath(exe, cmdline, name) == Join(" ", cmdline.value)
  {
    JoinEmpty(" ", cmdline.value);
    JoinNotAvailable(cmdline.value);
    var p := Join(" ", cmdline.value);
    if IsAbs(cmdline.value[0]) {
      assert p[..1] == cmdline.value[0][..1];
    }
  }

  /** A process with no executable path and the command line
      `/usr/bin/foo --flag` is reported with the whole command line, not only
      its first argument. */
  lemma CommandLineWithFlag(name: Option<string>)
    ensures ResolvePath(None, Some(["/usr/bin/foo", "--flag"]), name) == "/usr/bin/foo --flag"
  {
  }

  /** The process's details as read: `pid`, `name`, `exe` and `cmdline`, any of
      the last three possibly `None`. */
  datatype ProcInfo = ProcInfo(pid: int, name: Option<string>, exe: Option<string>, cmdline: Option<seq<string>>)

  /** The exceptions reading a process can raise. The first three are ignored
      silently, any other is logged; either way the process is skipped. */
  datatype ReadFailure = NoSuchProcess | AccessDenied | ZombieProcess | Unexpected(message: string)

  /** What reading one enumerated process gave. */
  datatype ProcRead = InfoRead(info: ProcInfo) | ReadRaised(failure: ReadFailure)

  /** One reported process. */
  datatype ProcessEntry = ProcessEntry(pid: int, name: Option<string>, path: string)

  /** The entry a readable process is reported as. */
  function EntryOf(info: ProcInfo): ProcessEntry {
    ProcessEntry(info.pid, info.name, ResolvePath(info.exe, info.cmdline, info.name))
  }

  /** The entries of the processes that could be read, in enumeration order. */
  function Kept(procs: seq<ProcRead>): seq<ProcessEntry> {
    if procs == [] then []
    else
      var last := procs[|procs| - 1];
      Kept(procs[..|procs| - 1]) + (if last.InfoRead? then [EntryOf(last.info)] else [])
  }

  /** The positions, in ascending order, of the processes that could be read. */
  function ReadIndices(procs: seq<ProcRead>): seq<nat> {
    if procs == [] then []
    else
      var n := |procs| - 1;
      ReadIndices(procs[..n]) + (if procs[n].InfoRead? then [n] else [])
  }

  /** `get_process_info()` */
  method GetProcessInfo(procs: seq<ProcRead>) returns (processes: seq<ProcessEntry>)
    ensures processes == Kept(procs)
  {
    processes := [];
    for i := 0 to |procs|
      invariant processes == Kept(procs[..i])
    {
      assert procs[..i + 1][..i] == procs[..i];
      match procs[i]
      case InfoRead(info) =>
        var path := ResolvePath(info.exe, info.cmdline, info.name);
        processes := processes + [ProcessEntry(info.pid, info.name, path)];
      case ReadRaised(_) =>
    }
    assert procs[..|procs|] == procs;
  }

  /** The read positions are ascending positions of `procs`, and a position is
      among them exactly when that process could be read. */
  lemma {:induction false} ReadIndicesExactly(procs: seq<ProcRead>)
    ensures |ReadIndices(procs)| <= |procs|
    ensures forall k :: 0 <= k < |ReadIndices(procs)| ==> ReadIndices(procs)[k] < |procs|
    ensures forall k, l :: 0 <= k < l < |ReadIndices(procs)| ==> ReadIndices(procs)[k] < ReadIndices(procs)[l]
    ensures forall i :: 0 <= i < |procs| ==> (procs[i].InfoRead? <==> i in ReadIndices(procs))
  {
    if procs != [] {
      var n := |procs| - 1;
      ReadIndicesExactly(procs[..n]);
      forall i | 0 <= i < n ensures procs[i] == procs[..n][i] {}
    }
  }

  /** The report is an order-preserving selection of the enumerated processes:
      its k-th entry is the resolved entry of the k-th readable process, so it
      omits exactly the processes whose read raised and is never longer than
      the enumeration. */
  lemma {:induction false} KeptSelection(procs: seq<ProcRead>)
    ensures |Kept(procs)| == |ReadIndices(procs)| <= |procs|
    ensures forall k :: 0 <= k < |Kept(procs)| ==>
      var i := ReadIndices(procs)[k];
      i < |procs| && procs[i].InfoRead? && Kept(procs)[k] == EntryOf(procs[i].info)
  {
    ReadIndicesExactly(procs);
    if procs != [] {
      var n := |procs| - 1;
      KeptSelection(procs[..n]);
      forall i | 0 <= i < n ensures procs[i] == procs[..n][i] {}
    }
  }
}
