# ServerCheck host report: verified model of its collection rules

ServerCheck is a one-shot inspection script. It reads the host name, the IPv4
addresses, CPU load, memory, per-partition disk usage and the process table,
and prints a report. This project models the deterministic rules underneath
those queries. Every operating-system query is replaced by plain input data:
what the query returned, or the exception it raised. The rules modelled are:

- **Identity query** (`HostIdentity`). `get_hostname_ip` skips the interface
  named `lo` and keeps only `AF_INET` records. It returns the addresses
  deduplicated and sorted. If the interfaces cannot be listed, it returns the
  single entry `获取失败`.
- **Disk query** (`DiskQuery`). `get_disk_info` gives one entry per partition.
  An entry is the full record if the usage could be read. It is an error entry
  carrying `Permission Denied` on a `PermissionError`. On any other failure it
  is an error entry carrying that failure's message. A failed partition
  listing gives no entries.
- **Process query** (`ProcessQuery`). `get_process_info` drops every process
  whose read raised. Every other process is reported with its PID, its name and
  a resolved path. The path goes through three steps. First the fallback
  chain: the executable, else the space-joined command line, else `N/A`. Then
  an empty or `N/A` result becomes the sentinel `[无法获取路径或内核线程: <name>]`.
  Then the repair: a relative path not starting with `[` is replaced by an
  absolute first command-line argument.
- **Path display** (`Report`). The report shows a path unchanged when it is
  shorter than 100 characters. Otherwise it shows the first 97 characters
  followed by `...`.

Python semantics are written out in `PyText` and `PySorted`:

- Truthiness: `None` and `""` are false, and so are `None` and `[]`.
- `str.join`.
- `os.path.isabs` on POSIX: the path starts with `/`.
- f-string rendering of `None` as `None`.
- The code-point ordering of `str`.
- `sorted(set(xs))`.

The three collection loops are methods. Each builds its list by appending, as
the script does, and is proved against a specification function over the
inputs seen so far.

The code and its written description disagree in one place. The description's
example says that a process with no executable and the command line
`["/usr/bin/foo", "--flag"]` resolves to `/usr/bin/foo`. The code joins the
command line first, so the joined string is already absolute, and the repair
does not fire. The result is `/usr/bin/foo --flag`. The model follows the code
(`ProcessQuery.CommandLineWithFlag`).

## Model

| member | source | states |
|---|---|---|
| PyText.Join | server_check.py:108 | `' '.join(parts)` is empty for no parts, starts with the first part, and has the parts' total length plus one separator between each pair of neighbours |
| PyText.JoinEmpty | server_check.py:108-111 | with a non-empty separator, the join is empty exactly when there are no parts or the only part is `""`, which is when the fallback chain yields an empty path |
| PySorted.SortedSet | server_check.py:36 | `sorted(set(xs))` is strictly ascending in Python's `str` order, so sorted and duplicate-free, and holds exactly the strings of `xs` |
| PySorted.AscendingUnique | server_check.py:36 | two strictly ascending lists with the same strings are equal, so the sorted, deduplicated list is uniquely determined by the collected addresses |
| PySorted.LessTotal | server_check.py:36 | Python's `str` order is total: two different strings are ordered one way or the other |
| PySorted.LessTransitive | server_check.py:36 | Python's `str` order is transitive |
| HostIdentity.CollectedExactly | server_check.py:27-34 | the address list built by the loops contains an address exactly when some interface not named `lo` has an `AF_INET` record with that address |
| HostIdentity.GetHostnameIp | server_check.py:20-40 | the host name is passed through; a failed interface listing yields exactly `["获取失败"]`; otherwise the result is strictly ascending and contains exactly the IPv4 addresses of the non-loopback interfaces |
| DiskQuery.GetDiskInfo | server_check.py:61-96 | a failed listing yields no entries; otherwise there is one entry per partition, in partition order, with that partition's mount point: the full record with `fstype` when usage was read, `Permission Denied` on `PermissionError`, the failure's message on any other failure |
| DiskQuery.PermissionDeniedCount | server_check.py:66-93 | the number of entries tagged `Permission Denied` equals the number of partitions that raised `PermissionError`, plus the number of other failures whose message is that same text |
| ProcessQuery.ResolvePath | server_check.py:108-117 | the resolved path is never empty and never `N/A` |
| ProcessQuery.SentinelCases | server_check.py:108-113 | the path is the sentinel `[无法获取路径或内核线程: <name>]`, which starts with `[`, in four cases: neither executable nor command line is truthy; the executable is `N/A`; the executable is falsy and the command line is `[""]` or `["N/A"]` |
| ProcessQuery.ExecutablePath | server_check.py:108-117 | a truthy executable other than `N/A` is returned unchanged. The one exception: it is relative, does not start with `[`, and the command line is non-empty with an absolute first argument; then that argument is returned |
| ProcessQuery.JoinNotAvailable | server_check.py:108-111 | the space-joined command line reads `N/A` exactly when the command line is the single argument `N/A` |
| ProcessQuery.CommandLinePath | server_check.py:108-117 | with a falsy executable and a truthy command line other than `[""]` and `["N/A"]`, the path is exactly the space-joined command line; the repair never changes it |
| ProcessQuery.CommandLineWithFlag | server_check.py:108-117 | no executable and command line `/usr/bin/foo --flag` resolve to the whole joined line |
| ProcessQuery.GetProcessInfo | server_check.py:98-129 | the collected list is the resolved entries of the processes that could be read, in enumeration order |
| ProcessQuery.ReadIndicesExactly | server_check.py:102-128 | the positions of readable processes are strictly ascending and in range, and a position is among them exactly when that process's read did not raise |
| ProcessQuery.KeptSelection | server_check.py:102-129 | the report is an order-preserving selection: its k-th entry has the PID and name of the k-th readable process and the path the resolution rule gives for it, and the report is never longer than the enumeration |
| Report.DisplayPath | server_check.py:181 | a path shorter than 100 characters is shown unchanged; a longer one as its first 97 characters plus `...`, exactly 100 characters; a shown path never exceeds 100 characters |
| Report.DisplayPathIdempotent | server_check.py:181 | shortening an already shown path changes nothing |

## Left out

- Operating-system queries are not modelled. These are the `psutil` calls (`net_if_addrs`, `disk_partitions`, `disk_usage`, `process_iter`) and `socket.gethostname`. Their results or exceptions are inputs to the model.
- `get_cpu_info` is not modelled. It is a one-second blocking sample with no logic of its own.
- `bytes_to_gb` and `get_memory_info` are not modelled. They are floating-point division and rounding. A full disk entry therefore carries the byte counts and percentage as read, not the rounded gigabyte figures.
- The report printing in `__main__` is not modelled: banners, the timestamp, column padding, section headers and the process count. It is I/O and formatting. Only the path display rule at line 181 is kept.
- The log messages printed in the `except` branches are not modelled. They are output only. The model distinguishes silently ignored process failures from logged ones, but both drop the process.
- `os.path.isabs` is modelled for POSIX only. Windows drive letters and UNC paths are out of scope.
- HostIdentity.GetHostnameIp: the failure path covers only the listing call itself raising. That is the only call in the loop that can raise, so the result is exactly `["获取失败"]`. A hypothetical exception after some addresses were collected, which would leave them in the list before the marker, is not modelled.
- ProcessQuery.GetProcessInfo: each enumerated process is taken as already read or already failed. How `psutil` fills unreadable fields with `None` instead of raising is outside the model. The model covers both outcomes through `Option` fields and `ReadRaised`.
