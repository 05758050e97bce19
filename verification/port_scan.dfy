/** `scan_most_used_ports_for_ip` and `scan_port_range_for_ip`: the probed
    port list and the assembly of the per-port task results into the returned
    map. Each spawned connect task is modelled by a connection oracle; the
    tasks' results are read in spawn order after `join_all`. */
module PortScan {
  import opened Addresses
  import opened Catalog
  import Text

  // ---------------------------------------------------------------------------
  // One probe task

  /** How `timeout(100 ms, TcpStream::connect(addr))` ends: a connection, an
      I/O error within the time limit (refused, unreachable, ...), or the
      time limit. */
  datatype ConnectOutcome = Connected | ConnectFailed | TimedOut

  /** How a spawned probe task ends: it finishes with a connect outcome, or
      it panics and `join_all` yields an `Err`. */
  datatype ProbeTask = Finished(outcome: ConnectOutcome) | TaskPanicked

  /** The network, as an oracle over (target, port). */
  type Connector = (IpAddr, nat) -> ProbeTask

  /** What one task hands back: `Ok(Some(port))`, `Ok(None)` or `Err(_)`. */
  datatype TaskResult = OpenPort(port: nat) | NoPort | JoinFailed

  /** `format!("{}:{}", ip, port).parse::<SocketAddr>()` succeeds: an IPv4
      address followed by a `u16` port. An IPv6 address is written without
      brackets, which is not socket-address syntax, so it never parses. */
  predicate SocketAddrParses(ip: IpAddr, port: nat) {
    ip.V4? && port <= Text.U16_MAX
  }

  /** `port as u16`. */
  function AsU16(port: nat): nat {
    port % 0x1_0000
  }

  /** One probe task as written: the outer `timeout(..).is_ok()` is true
      whenever the connect attempt ended inside the time limit, also when it
      ended with an error. */
  function PortTaskAsWritten(ip: IpAddr, port: nat, connect: Connector): TaskResult {
    if !SocketAddrParses(ip, port) then NoPort
    else
      match connect(ip, port)
      case TaskPanicked => JoinFailed
      case Finished(TimedOut) => NoPort
      case Finished(_) => OpenPort(AsU16(port))
  }

  /** The port is open: a connection to it was established in time. */
  predicate PortOpen(ip: IpAddr, port: nat, connect: Connector) {
    SocketAddrParses(ip, port) && connect(ip, port) == Finished(Connected)
  }

  /** One probe task as intended: only an established connection reports the
      port, and the reported `u16` is the probed port. */
  function PortTask(ip: IpAddr, port: nat, connect: Connector): (r: TaskResult)
    ensures r.OpenPort? <==> PortOpen(ip, port, connect)
    ensures r.OpenPort? ==> r.port == port
    ensures r.JoinFailed? <==> SocketAddrParses(ip, port) && connect(ip, port).TaskPanicked?
  {
    if !SocketAddrParses(ip, port) then NoPort
    else
      match connect(ip, port)
      case TaskPanicked => JoinFailed
      case Finished(Connected) => OpenPort(AsU16(port))
      case Finished(_) => NoPort
  }

  /** The two versions differ exactly on a connect attempt that failed inside
      the time limit, which the as-written task reports as an open port. */
  lemma AsWrittenReportsFailedConnects(ip: IpAddr, port: nat, connect: Connector)
    ensures PortTaskAsWritten(ip, port, connect) != PortTask(ip, port, connect)
      <==> SocketAddrParses(ip, port) && connect(ip, port) == Finished(ConnectFailed)
    ensures SocketAddrParses(ip, port) && connect(ip, port) == Finished(ConnectFailed)
      ==> PortTaskAsWritten(ip, port, connect) == OpenPort(port) && PortTask(ip, port, connect) == NoPort
  {
  }

  // ---------------------------------------------------------------------------
  // Result assembly

  /** The ports of the `Ok(Some(port))` results, in result order. */
  function OpenPorts(results: seq<TaskResult>): (ports: seq<nat>)
    ensures |ports| > 0 <==> exists i :: 0 <= i < |results| && results[i].OpenPort?
    decreases |results|
  {
    if |results| == 0 then []
    else
      var init := results[..|results| - 1];
      var last := results[|results| - 1];
      var r := OpenPorts(init) + (if last.OpenPort? then [last.port] else []);
      assert (exists i :: 0 <= i < |results| && results[i].OpenPort?)
        <==> (exists i :: 0 <= i < |init| && init[i].OpenPort?) || last.OpenPort? by {
        if exists i :: 0 <= i < |results| && results[i].OpenPort? {
          var i :| 0 <= i < |results| && results[i].OpenPort?;
          if i < |init| { assert init[i] == results[i]; }
        }
      }
      r
  }

  /** The result loop: every `Ok(Some(port))` is pushed onto the target's
      list, created on first use; `Ok(None)` is skipped and `Err` is logged. The
      target is the only possible key, and it is present only with a non-empty
      list. */
  method AssembleOpenPorts(ip: IpAddr, results: seq<TaskResult>) returns (m: map<IpAddr, seq<nat>>)
    ensures m.Keys <= {ip}
    ensures ip in m <==> OpenPorts(results) != []
    ensures ip in m ==> m[ip] == OpenPorts(results)
  {
    m := map[];
    var i := 0;
    while i < |results|
      invariant 0 <= i <= |results|
      invariant m.Keys <= {ip}
      invariant ip in m <==> |OpenPorts(results[..i])| > 0
      invariant ip in m ==> m[ip] == OpenPorts(results[..i])
    {
      assert results[..i + 1][..i] == results[..i];
      match results[i] {
        case OpenPort(port) =>
          var ports := if ip in m then m[ip] else [];
          m := m[ip := ports + [port]];
        case NoPort =>
        case JoinFailed =>
      }
      i := i + 1;
    }
    assert results[..|results|] == results;
  }

  /** The open ports among `ports`, in probe order, duplicates kept: the
      reference the scan results are measured against. */
  function OpenAmong(ip: IpAddr, ports: seq<nat>, connect: Connector): seq<nat>
    decreases |ports|
  {
    if |ports| == 0 then []
    else
      var last := ports[|ports| - 1];
      OpenAmong(ip, ports[..|ports| - 1], connect) + (if PortOpen(ip, last, connect) then [last] else [])
  }

  /** The spawned tasks' results, in spawn order. */
  function TaskResults(ip: IpAddr, ports: seq<nat>, connect: Connector): (rs: seq<TaskResult>)
    ensures |rs| == |ports|
    ensures forall i :: 0 <= i < |ports| ==> rs[i] == PortTask(ip, ports[i], connect)
  {
    seq(|ports|, i requires 0 <= i < |ports| => PortTask(ip, ports[i], connect))
  }

  lemma {:induction false} OpenPortsOfTasks(ip: IpAddr, ports: seq<nat>, connect: Connector)
    ensures OpenPorts(TaskResults(ip, ports, connect)) == OpenAmong(ip, ports, connect)
    decreases |ports|
  {
    if |ports| > 0 {
      var init := ports[..|ports| - 1];
      assert TaskResults(ip, ports, connect)[..|ports| - 1] == TaskResults(ip, init, connect);
      OpenPortsOfTasks(ip, init, connect);
    }
  }

  /** The tasks' results with every task as written. */
  function TaskResultsAsWritten(ip: IpAddr, ports: seq<nat>, connect: Connector): (rs: seq<TaskResult>)
    ensures |rs| == |ports|
    ensures forall i :: 0 <= i < |ports| ==> rs[i] == PortTaskAsWritten(ip, ports[i], connect)
  {
    seq(|ports|, i requires 0 <= i < |ports| => PortTaskAsWritten(ip, ports[i], connect))
  }

  /** Every reported port of the results is in the assembled list. */
  lemma {:induction false} OpenPortsHas(results: seq<TaskResult>, i: nat)
    requires i < |results| && results[i].OpenPort?
    ensures results[i].port in OpenPorts(results)
    decreases |results|
  {
    var n := |results| - 1;
    if i < n {
      assert results[..n][i] == results[i];
      OpenPortsHas(results[..n], i);
    }
  }

  /** As written, a probed port that refuses the connection in time is in the
      assembled list, although it is not open. */
  lemma AsWrittenListsRefusedPort(ip: IpAddr, ports: seq<nat>, connect: Connector, i: nat)
    requires i < |ports| && SocketAddrParses(ip, ports[i])
    requires connect(ip, ports[i]) == Finished(ConnectFailed)
    ensures ports[i] in OpenPorts(TaskResultsAsWritten(ip, ports, connect))
    ensures ports[i] !in OpenPorts(TaskResults(ip, ports, connect))
  {
    var rs := TaskResultsAsWritten(ip, ports, connect);
    assert rs[i] == OpenPort(ports[i]);
    OpenPortsHas(rs, i);
    OpenPortsOfTasks(ip, ports, connect);
    OpenAmongMembers(ip, ports, connect, ports[i]);
  }

  /** Probe every port of `ports` against `ip` and assemble the map. */
  function ScanPorts(ip: IpAddr, ports: seq<nat>, connect: Connector): (r: map<IpAddr, seq<nat>>)
    ensures r.Keys <= {ip}
    ensures ip in r <==> exists i :: 0 <= i < |ports| && PortOpen(ip, ports[i], connect)
    ensures ip in r ==> r[ip] == OpenAmong(ip, ports, connect)
    // no open port: no entry at all, rather than an empty list
    ensures ip !in r <==> OpenAmong(ip, ports, connect) == []
  {
    var results := TaskResults(ip, ports, connect);
    var open := OpenPorts(results);
    OpenPortsOfTasks(ip, ports, connect);
    assert (exists i :: 0 <= i < |results| && results[i].OpenPort?)
      <==> (exists i :: 0 <= i < |ports| && PortOpen(ip, ports[i], connect));
    if |open| > 0 then map[ip := open] else map[]
  }

  /** Each port appears in the open list as often as it was probed if it is
      open, and not at all otherwise. */
  lemma {:induction false} OpenAmongCount(ip: IpAddr, ports: seq<nat>, connect: Connector, p: nat)
    ensures Occurrences(OpenAmong(ip, ports, connect), p)
      == if PortOpen(ip, p, connect) then Occurrences(ports, p) else 0
    decreases |ports|
  {
    if |ports| > 0 {
      var n := |ports| - 1;
      var init := ports[..n];
      OpenAmongCount(ip, init, connect, p);
      var tail: seq<nat> := if PortOpen(ip, ports[n], connect) then [ports[n]] else [];
      OccurrencesAppend(OpenAmong(ip, init, connect), tail, p);
      assert tail == [] || tail[..0] == [];
    }
  }

  /** The open list holds exactly the probed ports that are open. */
  lemma {:induction false} OpenAmongMembers(ip: IpAddr, ports: seq<nat>, connect: Connector, p: nat)
    ensures p in OpenAmong(ip, ports, connect) <==> p in ports && PortOpen(ip, p, connect)
    decreases |ports|
  {
    if |ports| > 0 {
      var n := |ports| - 1;
      var init := ports[..n];
      OpenAmongMembers(ip, init, connect, p);
      assert ports == init + [ports[n]];
    }
  }

  /** `idx` picks `ys` out of `xs` at ascending positions. */
  ghost predicate SelectedBy(idx: seq<nat>, xs: seq<nat>, ys: seq<nat>) {
    && |idx| == |ys|
    && (forall k :: 0 <= k < |idx| ==> idx[k] < |xs| && xs[idx[k]] == ys[k])
    && (forall k, l :: 0 <= k < l < |idx| ==> idx[k] < idx[l])
  }

  /** Appending one element to the source either keeps the selection or
      extends it by the new last position. */
  lemma SelectedByExtend(idx: seq<nat>, xs: seq<nat>, ys: seq<nat>, x: nat, keep: bool)
    requires SelectedBy(idx, xs, ys)
    ensures SelectedBy(if keep then idx + [|xs|] else idx, xs + [x], ys + (if keep then [x] else []))
  {
    var xs' := xs + [x];
    if keep {
      var idx' := idx + [|xs|];
      var ys' := ys + [x];
      assert forall k :: 0 <= k < |idx| ==> idx'[k] == idx[k] && ys'[k] == ys[k] && xs'[idx[k]] == xs[idx[k]];
      assert idx'[|idx|] == |xs| && xs'[|xs|] == x && ys'[|idx|] == x;
    } else {
      assert forall k :: 0 <= k < |idx| ==> xs'[idx[k]] == xs[idx[k]];
      assert ys + [] == ys;
    }
  }

  /** The positions of the open ports among the probed ones. */
  function OpenPositions(ip: IpAddr, ports: seq<nat>, connect: Connector): seq<nat>
    decreases |ports|
  {
    if |ports| == 0 then []
    else
      var n := |ports| - 1;
      OpenPositions(ip, ports[..n], connect) + (if PortOpen(ip, ports[n], connect) then [n] else [])
  }

  /** A selection at ascending positions out of a strictly ascending
      sequence is strictly ascending. */
  lemma SelectedAscending(idx: seq<nat>, xs: seq<nat>, ys: seq<nat>)
    requires SelectedBy(idx, xs, ys) && StrictlyAscending(xs)
    ensures StrictlyAscending(ys)
  {
    forall k, l | 0 <= k < l < |ys|
      ensures ys[k] < ys[l]
    {
      assert xs[idx[k]] == ys[k] && xs[idx[l]] == ys[l] && idx[k] < idx[l];
    }
  }

  /** The open list keeps the probe order: it is the probed ports picked at
      the ascending open positions. */
  lemma {:induction false} OpenAmongSubsequence(ip: IpAddr, ports: seq<nat>, connect: Connector)
    ensures SelectedBy(OpenPositions(ip, ports, connect), ports, OpenAmong(ip, ports, connect))
    decreases |ports|
  {
    if |ports| > 0 {
      var n := |ports| - 1;
      var init := ports[..n];
      OpenAmongSubsequence(ip, init, connect);
      var sel, out := OpenPositions(ip, init, connect), OpenAmong(ip, init, connect);
      var keep := PortOpen(ip, ports[n], connect);
      SelectedByExtend(sel, init, out, ports[n], keep);
      assert init + [ports[n]] == ports;
      SelectedByRename(if keep then sel + [|init|] else sel, init + [ports[n]], out + (if keep then [ports[n]] else []),
        OpenPositions(ip, ports, connect), ports, OpenAmong(ip, ports, connect));
    }
  }

  /** `SelectedBy` carried over to equal arguments. `OpenAmongSubsequence`
      builds its three sequences from the previous step and must conclude
      about them under their own names; passing both spellings here keeps
      that equality reasoning out of the inductive step. */
  lemma SelectedByRename(idx: seq<nat>, xs: seq<nat>, ys: seq<nat>, idx': seq<nat>, xs': seq<nat>, ys': seq<nat>)
    requires SelectedBy(idx, xs, ys) && idx == idx' && xs == xs' && ys == ys'
    ensures SelectedBy(idx', xs', ys')
  {
  }

  /** An open port that is probed at least once is reported, once per
      probe. */
  lemma OpenPortKept(ip: IpAddr, ports: seq<nat>, connect: Connector, p: nat)
    requires PortOpen(ip, p, connect) && Occurrences(ports, p) > 0
    ensures ip in ScanPorts(ip, ports, connect)
    ensures Occurrences(ScanPorts(ip, ports, connect)[ip], p) == Occurrences(ports, p)
  {
    OpenAmongCount(ip, ports, connect, p);
    assert OpenAmong(ip, ports, connect) != [];
  }

  /** `scan_most_used_ports_for_ip`: the catalog, duplicates included. */
  function ScanCatalog(ip: IpAddr, connect: Connector): (r: map<IpAddr, seq<nat>>)
    ensures r.Keys <= {ip}
    ensures ip in r <==> exists i :: 0 <= i < |CatalogPorts()| && PortOpen(ip, CatalogPorts()[i], connect)
    ensures ip in r ==> r[ip] == OpenAmong(ip, CatalogPorts(), connect)
    ensures ip !in r <==> OpenAmong(ip, CatalogPorts(), connect) == []
  {
    ScanPorts(ip, CatalogPorts(), connect)
  }

  /** An open 8080 is listed six times, once per catalog entry. */
  lemma CatalogDuplicatesKept(ip: IpAddr, connect: Connector)
    requires PortOpen(ip, 8080, connect)
    ensures ip in ScanCatalog(ip, connect)
    ensures Occurrences(ScanCatalog(ip, connect)[ip], 8080) == 6
  {
    Catalog8080Count();
    OpenPortKept(ip, CatalogPorts(), connect, 8080);
  }

  /** `scan_port_range_for_ip`: the ports `start..=end` (`u32` values). */
  function ScanRange(ip: IpAddr, start: U32, end: U32, connect: Connector): (r: map<IpAddr, seq<nat>>)
    ensures start > end ==> r == map[]
    ensures r.Keys <= {ip}
    ensures ip in r <==> exists p :: start <= p <= end && PortOpen(ip, p, connect)
    ensures ip in r ==> r[ip] == OpenAmong(ip, InclusiveRange(start, end), connect)
  {
    var ports := InclusiveRange(start, end);
    assert (exists i :: 0 <= i < |ports| && PortOpen(ip, ports[i], connect))
      <==> (exists p :: start <= p <= end && PortOpen(ip, p, connect)) by {
      if exists p :: start <= p <= end && PortOpen(ip, p, connect) {
        var p :| start <= p <= end && PortOpen(ip, p, connect);
        assert ports[p - start] == p;
      }
    }
    ScanPorts(ip, ports, connect)
  }

  /** A range scan lists each open port of the range once, ascending, and
      never a port above 65535 (so `port as u16` never truncates). */
  lemma ScanRangeContents(ip: IpAddr, start: U32, end: U32, connect: Connector)
    requires ip in ScanRange(ip, start, end, connect)
    ensures forall p ::
      (p in ScanRange(ip, start, end, connect)[ip] <==> start <= p <= end && PortOpen(ip, p, connect))
    ensures forall p :: p in ScanRange(ip, start, end, connect)[ip] ==> p <= Text.U16_MAX
    ensures StrictlyAscending(ScanRange(ip, start, end, connect)[ip])
  {
    var ports := InclusiveRange(start, end);
    assert ScanRange(ip, start, end, connect)[ip] == OpenAmong(ip, ports, connect);
    forall p: nat
      ensures p in OpenAmong(ip, ports, connect) <==> start <= p <= end && PortOpen(ip, p, connect)
    {
      OpenAmongMembers(ip, ports, connect, p);
      if start <= p <= end {
        assert ports[p - start] == p;
      }
    }
    OpenAmongSubsequence(ip, ports, connect);
    SelectedAscending(OpenPositions(ip, ports, connect), ports, OpenAmong(ip, ports, connect));
  }

  /** A strictly ascending sequence holding exactly the values `a < b` is
      `[a, b]`. */
  lemma AscendingPair(s: seq<nat>, a: nat, b: nat)
    requires StrictlyAscending(s) && a < b
    requires forall p :: p in s <==> p == a || p == b
    ensures s == [a, b]
  {
    assert a in s && b in s;
    var i :| 0 <= i < |s| && s[i] == a;
    var j :| 0 <= j < |s| && s[j] == b;
    assert |s| >= 2;
    if |s| > 2 {
      FirstThree(s);
      assert false;
    }
    assert s[0] < s[1] && s[0] in s && s[1] in s;
  }

  lemma FirstThree(s: seq<nat>)
    requires StrictlyAscending(s) && |s| > 2
    ensures s[0] < s[1] < s[2] && s[0] in s && s[1] in s && s[2] in s
  {
  }

  /** Probing 1..1024 on a host where exactly 80 and 443 accept connections
      lists exactly those two ports. */
  lemma RangeScanExample(ip: IpAddr, connect: Connector)
    requires ip.V4?
    requires forall p :: 1 <= p <= 1024 ==> (connect(ip, p) == Finished(Connected) <==> p == 80 || p == 443)
    ensures ScanRange(ip, 1, 1024, connect) == map[ip := [80, 443]]
  {
    var r := ScanRange(ip, 1, 1024, connect);
    assert PortOpen(ip, 80, connect);
    assert ip in r;
    ScanRangeContents(ip, 1, 1024, connect);
    forall p ensures p in r[ip] <==> p == 80 || p == 443 {
      assert p in r[ip] <==> 1 <= p <= 1024 && PortOpen(ip, p, connect);
    }
    AscendingPair(r[ip], 80, 443);
    assert r.Keys == {ip};
  }
}
