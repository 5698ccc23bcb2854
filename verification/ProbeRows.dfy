/**
 What `prove_cleanup_and_no_submission` of tools/kernel_probe_startup_smoke.py is to find out,
 stated on the rows of a system-call trace and their fields.
 */
module ProbeRows {
  import opened Options

  /** A process and one of its file descriptors. */
  datatype Key = Key(pid: string, fd: string)

  datatype Call = IoUringSetup | IoUringRegister | IoUringEnter | Close | Accept | Accept4 | Socket | Bind | Listen

  /**
   One parsed row: the numeric return value, the leading descriptor argument, whether the
   arguments name a probe registration, whether the call returned 0, and the bound port.
   */
  datatype Row = Row(pid: string, call: Call, returned: Option<string>, first: Option<string>, probe: bool, zero: bool,
                     port: Option<nat>)

  // ---------------------------------------------------------------- single rows

  /** The call returned this descriptor to this process. */
  predicate Returns(row: Row, call: Call, k: Key) { row.call == call && row.pid == k.pid && row.returned == Some(k.fd) }

  /** The call was made on this descriptor by this process. */
  predicate Names(row: Row, call: Call, k: Key) { row.call == call && row.pid == k.pid && row.first == Some(k.fd) }

  predicate IsClose(row: Row, k: Key) { Names(row, Close, k) && row.zero }
  predicate IsProbe(row: Row, k: Key) { Names(row, IoUringRegister, k) && row.probe }
  predicate IsBind(row: Row, k: Key, port: nat) { Names(row, Bind, k) && row.zero && row.port == Some(port) }

  // ---------------------------------------------------------------- generations

  /** No successful close of the descriptor after row `i` and before row `n`. */
  ghost predicate Alive(rows: seq<Row>, k: Key, i: nat, n: nat) {
    n <= |rows| && forall j :: i < j < n ==> !IsClose(rows[j], k)
  }

  /** The descriptor is, before row `n`, what the call made it. */
  ghost predicate IsOpen(rows: seq<Row>, call: Call, k: Key, n: nat) {
    exists i: nat :: i < n <= |rows| && Returns(rows[i], call, k) && Alive(rows, k, i, n)
  }

  /** A probe was registered on it before row `n`, in the same generation. */
  ghost predicate WasProbed(rows: seq<Row>, k: Key, n: nat) {
    exists i: nat :: i < n <= |rows| && IsProbe(rows[i], k) && Alive(rows, k, i, n)
  }

  /** Row `n` binds an expected port on an open socket. */
  ghost predicate BindsPort(rows: seq<Row>, expected: set<nat>, n: nat, k: Key, port: nat) {
    n < |rows| && port in expected && IsBind(rows[n], k, port) && IsOpen(rows, Socket, k, n)
  }

  ghost predicate ClosedLater(rows: seq<Row>, k: Key, n: nat) {
    exists j :: n < j < |rows| && IsClose(rows[j], k)
  }

  function ProbeRowsIn(rows: seq<Row>, n: nat): nat
    requires n <= |rows|
  {
    if n == 0 then 0
    else
      var row := rows[n - 1];
      ProbeRowsIn(rows, n - 1) + if row.call == IoUringRegister && row.probe && row.first.Some? then 1 else 0
  }

  /** What row `n` must not do. */
  ghost predicate RowFine(rows: seq<Row>, n: nat)
    requires n < |rows|
  {
    && (forall k :: Returns(rows[n], IoUringSetup, k) ==> !IsOpen(rows, IoUringSetup, k, n))
    && (forall k :: Returns(rows[n], Socket, k) ==> !IsOpen(rows, Socket, k, n))
    && (forall k :: IsProbe(rows[n], k) ==> IsOpen(rows, IoUringSetup, k, n) && !WasProbed(rows, k, n))
    && (forall k :: Names(rows[n], IoUringEnter, k) ==> !(IsOpen(rows, IoUringSetup, k, n) && WasProbed(rows, k, n)))
    && !((rows[n].call == Accept || rows[n].call == Accept4) && rows[n].first.Some?)
  }

  /**
   No generation is opened twice; every ring is closed, probed at most once and only while open, and
   not entered after its probe; nothing is accepted; enough probes; every expected port was bound, and
   whoever bound one was closed.
   */
  ghost predicate CleanRows(rows: seq<Row>, expected: set<nat>, minimum: nat) {
    && (forall n: nat :: n < |rows| ==> RowFine(rows, n))
    && (forall n: nat, k :: n < |rows| && Returns(rows[n], IoUringSetup, k) ==> ClosedLater(rows, k, n))
    && ProbeRowsIn(rows, |rows|) >= minimum
    && (forall p :: p in expected ==> exists n: nat, k :: BindsPort(rows, expected, n, k, p))
    && (forall n: nat, k, p: nat :: BindsPort(rows, expected, n, k, p) ==> ClosedLater(rows, k, n))
  }
}
