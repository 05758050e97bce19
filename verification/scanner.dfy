/** `NetworkScanner`: its configuration, `get_ip_batches` and the host
    discovery of `run_scan`. The spawned per-batch tasks are modelled as a
    sequential map over the batches: the handles are awaited one at a time in
    spawn order, and each task's list is appended as its handle is awaited;
    the tasks share no state, so this equals a sequential map. */
module Scanner {
  import opened Wrappers
  import opened Addresses
  import opened Batching

  /** `NetworkScanner { source_ip, target_start_ip, target_cidr, batch_size }`. */
  datatype NetworkScanner = NetworkScanner(
    sourceIp: IpAddr,
    targetStartIp: IpAddr,
    targetCidr: U32,
    batchSize: nat)

  /** The ways the discovery phase aborts the process: the block text does not
      parse ("Invalid CIDR"), or `chunks` is given a zero batch size. */
  datatype ScanError = CidrParseFailed | ChunkSizeZero

  /** `get_ip_batches`: the block's addresses cut into batches of
      `batch_size`. */
  function GetIpBatches(s: NetworkScanner): (r: Result<seq<seq<U32>>, ScanError>)
    ensures r == Err(CidrParseFailed) <==> CollectedIps(s.targetStartIp, s.targetCidr).Err?
    ensures r == Err(ChunkSizeZero) <==> CollectedIps(s.targetStartIp, s.targetCidr).Ok? && s.batchSize == 0
    ensures r.Ok? ==> ChunkShaped(r.value, s.batchSize)
    ensures r.Ok? ==> Flatten(r.value) == CollectedIps(s.targetStartIp, s.targetCidr).value
  {
    match CollectedIps(s.targetStartIp, s.targetCidr)
    case Err(_) => Err(CidrParseFailed)
    case Ok(ips) =>
      if s.batchSize == 0 then Err(ChunkSizeZero) else Ok(Chunks(ips, s.batchSize))
  }

  // ---------------------------------------------------------------------------
  // Host discovery

  /** What one `test_existence(src, ip)` call does: it returns the hosts the
      ICMP scan reported, or it panics (the scanner cannot be created, or the
      foreign scan fails). It never returns `Err`. */
  datatype ProbeOutcome = Hosts(hosts: seq<IpAddr>) | Panicked

  /** The ICMP liveness probe, an oracle over (source, target). */
  type Probe = (IpAddr, IpAddr) -> ProbeOutcome

  predicate NoPanic(src: IpAddr, ips: seq<U32>, probe: Probe) {
    forall i :: 0 <= i < |ips| ==> probe(src, V4(ips[i])).Hosts?
  }

  /** The hosts reported for `ips`, in address order, each probe's list
      concatenated as is (no deduplication). Panicking probes report nothing. */
  function Reported(src: IpAddr, ips: seq<U32>, probe: Probe): seq<IpAddr> {
    Flatten(seq(|ips|, i requires 0 <= i < |ips| =>
      match probe(src, V4(ips[i]))
      case Hosts(h) => h
      case Panicked => []))
  }

  /** The spawned task of one batch: it probes the addresses one after another
      and extends its list with each result. A panic anywhere in the batch
      fails the whole task (`handle.await` is `Err`): `None`. */
  function BatchTask(src: IpAddr, batch: seq<U32>, probe: Probe): Option<seq<IpAddr>>
    decreases |batch|
  {
    if |batch| == 0 then Some([])
    else
      match probe(src, V4(batch[0]))
      case Panicked => None
      case Hosts(h) =>
        match BatchTask(src, batch[1..], probe)
        case None => None
        case Some(t) => Some(h + t)
  }

  /** A batch's task fails exactly when one of its probes panics, and
      otherwise returns the batch's reports in address order. */
  lemma {:induction false} BatchTaskSpec(src: IpAddr, batch: seq<U32>, probe: Probe)
    ensures BatchTask(src, batch, probe).None? <==> !NoPanic(src, batch, probe)
    ensures BatchTask(src, batch, probe).Some? ==> BatchTask(src, batch, probe).value == Reported(src, batch, probe)
    decreases |batch|
  {
    if |batch| > 0 {
      BatchTaskSpec(src, batch[1..], probe);
      ReportedCons(src, batch, probe);
      if probe(src, V4(batch[0])).Hosts? && NoPanic(src, batch[1..], probe) {
        forall i | 0 <= i < |batch| ensures probe(src, V4(batch[i])).Hosts? {
          if i > 0 {
            assert batch[i] == batch[1..][i - 1];
          }
        }
      }
      if NoPanic(src, batch, probe) {
        forall i | 0 <= i < |batch[1..]| ensures probe(src, V4(batch[1..][i])).Hosts? {
          assert batch[1..][i] == batch[i + 1];
        }
      }
    }
  }

  lemma ReportedCons(src: IpAddr, ips: seq<U32>, probe: Probe)
    requires |ips| > 0
    ensures Reported(src, ips, probe)
      == (match probe(src, V4(ips[0])) case Hosts(h) => h case Panicked => [])
         + Reported(src, ips[1..], probe)
  {
    var f := seq(|ips|, i requires 0 <= i < |ips| =>
      match probe(src, V4(ips[i])) case Hosts(h) => h case Panicked => []);
    var g := seq(|ips| - 1, i requires 0 <= i < |ips| - 1 =>
      match probe(src, V4(ips[1..][i])) case Hosts(h) => h case Panicked => []);
    assert f[1..] == g;
  }

  /** The loop over the awaited handles: each batch's list in batch order; a
      failed task is logged and contributes nothing. */
  function RunBatches(src: IpAddr, batches: seq<seq<U32>>, probe: Probe): seq<IpAddr>
    decreases |batches|
  {
    if |batches| == 0 then []
    else BatchTask(src, batches[0], probe).UnwrapOr([]) + RunBatches(src, batches[1..], probe)
  }

  /** Batches are independent: the result for a split list of batches is the
      two halves' results side by side. */
  lemma {:induction false} RunBatchesAppend(src: IpAddr, a: seq<seq<U32>>, b: seq<seq<U32>>, probe: Probe)
    ensures RunBatches(src, a + b, probe) == RunBatches(src, a, probe) + RunBatches(src, b, probe)
    decreases |a|
  {
    if |a| == 0 {
      assert a + b == b;
    } else {
      var x, a' := a[0], a[1..];
      assert a == [x] + a';
      assert a + b == [x] + (a' + b);
      RunBatchesAppend(src, a', b, probe);
      RunBatchesCons(src, x, a' + b, probe);
      RunBatchesCons(src, x, a', probe);
      var head := BatchTask(src, x, probe).UnwrapOr([]);
      var restA, restB := RunBatches(src, a', probe), RunBatches(src, b, probe);
      assert head + (restA + restB) == (head + restA) + restB;
    }
  }

  lemma RunBatchesCons(src: IpAddr, x: seq<U32>, rest: seq<seq<U32>>, probe: Probe)
    ensures RunBatches(src, [x] + rest, probe) == BatchTask(src, x, probe).UnwrapOr([]) + RunBatches(src, rest, probe)
  {
    assert ([x] + rest)[1..] == rest;
  }

  /** A batch whose task fails removes exactly its own contribution: the
      other batches' results are those of the run without it. */
  lemma FailedBatchIsolated(src: IpAddr, a: seq<seq<U32>>, bad: seq<U32>, b: seq<seq<U32>>, probe: Probe)
    requires BatchTask(src, bad, probe).None?
    ensures RunBatches(src, a + [bad] + b, probe) == RunBatches(src, a + b, probe)
  {
    RunBatchesAppend(src, a + [bad], b, probe);
    RunBatchesAppend(src, a, [bad], probe);
    RunBatchesAppend(src, a, b, probe);
    assert RunBatches(src, [bad], probe) == [] by {
      assert [bad][1..] == [];
    }
  }

  lemma {:induction false} ReportedAppend(src: IpAddr, a: seq<U32>, b: seq<U32>, probe: Probe)
    ensures Reported(src, a + b, probe) == Reported(src, a, probe) + Reported(src, b, probe)
    decreases |a|
  {
    if |a| == 0 {
      assert a + b == b;
    } else {
      ReportedCons(src, a + b, probe);
      ReportedCons(src, a, probe);
      assert (a + b)[1..] == a[1..] + b;
      ReportedAppend(src, a[1..], b, probe);
    }
  }

  /** With no panicking probe, running any batching reports the hosts of the
      flattened address list. */
  lemma {:induction false} RunBatchesFlatten(src: IpAddr, batches: seq<seq<U32>>, probe: Probe)
    requires NoPanic(src, Flatten(batches), probe)
    ensures RunBatches(src, batches, probe) == Reported(src, Flatten(batches), probe)
    decreases |batches|
  {
    if |batches| > 0 {
      var head, tail := batches[0], Flatten(batches[1..]);
      assert Flatten(batches) == head + tail;
      assert NoPanic(src, head, probe) by {
        forall i | 0 <= i < |head| ensures probe(src, V4(head[i])).Hosts? {
          assert head[i] == Flatten(batches)[i];
        }
      }
      assert NoPanic(src, tail, probe) by {
        forall i | 0 <= i < |tail| ensures probe(src, V4(tail[i])).Hosts? {
          assert tail[i] == Flatten(batches)[|head| + i];
        }
      }
      RunBatchesFlatten(src, batches[1..], probe);
      BatchTaskSpec(src, head, probe);
      ReportedAppend(src, head, tail, probe);
    }
  }

  /** Discovery does not depend on the batch size: with no panicking probe,
      every batch size reports the same hosts, in address order. */
  lemma BatchSizeInvariant(src: IpAddr, ips: seq<U32>, n: nat, probe: Probe)
    requires n >= 1
    requires NoPanic(src, ips, probe)
    ensures RunBatches(src, Chunks(ips, n), probe) == Reported(src, ips, probe)
  {
    RunBatchesFlatten(src, Chunks(ips, n), probe);
  }

  /** A host is reported exactly when some address's probe reported it. */
  lemma ReportedMembers(src: IpAddr, ips: seq<U32>, probe: Probe, h: IpAddr)
    ensures h in Reported(src, ips, probe)
      <==> exists i :: 0 <= i < |ips| && probe(src, V4(ips[i])).Hosts? && h in probe(src, V4(ips[i])).hosts
    decreases |ips|
  {
    if |ips| > 0 {
      ReportedCons(src, ips, probe);
      ReportedMembers(src, ips[1..], probe, h);
      if h in Reported(src, ips[1..], probe) {
        var i :| 0 <= i < |ips[1..]| && probe(src, V4(ips[1..][i])).Hosts? && h in probe(src, V4(ips[1..][i])).hosts;
        assert ips[i + 1] == ips[1..][i];
      }
      if exists i :: 0 <= i < |ips| && probe(src, V4(ips[i])).Hosts? && h in probe(src, V4(ips[i])).hosts {
        var i :| 0 <= i < |ips| && probe(src, V4(ips[i])).Hosts? && h in probe(src, V4(ips[i])).hosts;
        if i > 0 {
          assert ips[1..][i - 1] == ips[i];
        }
      }
    }
  }

  /** `run_scan`: batches the block (which can abort the process) and
      gathers the batches' reports in batch order. */
  function RunScan(s: NetworkScanner, probe: Probe): (r: Result<seq<IpAddr>, ScanError>)
    ensures r.Ok? <==> GetIpBatches(s).Ok?
    ensures r.Ok? && NoPanic(s.sourceIp, CollectedIps(s.targetStartIp, s.targetCidr).value, probe)
      ==> r.value == Reported(s.sourceIp, CollectedIps(s.targetStartIp, s.targetCidr).value, probe)
  {
    match GetIpBatches(s)
    case Err(e) => Err(e)
    case Ok(batches) =>
      assert NoPanic(s.sourceIp, Flatten(batches), probe) ==>
        RunBatches(s.sourceIp, batches, probe) == Reported(s.sourceIp, Flatten(batches), probe) by {
        if NoPanic(s.sourceIp, Flatten(batches), probe) {
          RunBatchesFlatten(s.sourceIp, batches, probe);
        }
      }
      Ok(RunBatches(s.sourceIp, batches, probe))
  }

  /** Discovery on 10.0.0.0/30 from 10.0.0.5 with batches of two, where only
      10.0.0.1 and 10.0.0.3 answer: two batches of two addresses, and the two
      answering hosts, in address order. */
  lemma DiscoveryExample(probe: Probe)
    requires probe(V4(0x0A00_0005), V4(0x0A00_0000)) == Hosts([])
    requires probe(V4(0x0A00_0005), V4(0x0A00_0001)) == Hosts([V4(0x0A00_0001)])
    requires probe(V4(0x0A00_0005), V4(0x0A00_0002)) == Hosts([])
    requires probe(V4(0x0A00_0005), V4(0x0A00_0003)) == Hosts([V4(0x0A00_0003)])
    ensures GetIpBatches(NetworkScanner(V4(0x0A00_0005), V4(0x0A00_0000), 30, 2))
      == Ok([[0x0A00_0000, 0x0A00_0001], [0x0A00_0002, 0x0A00_0003]])
    ensures RunScan(NetworkScanner(V4(0x0A00_0005), V4(0x0A00_0000), 30, 2), probe)
      == Ok([V4(0x0A00_0001), V4(0x0A00_0003)])
  {
    var src, s := V4(0x0A00_0005), NetworkScanner(V4(0x0A00_0005), V4(0x0A00_0000), 30, 2);
    var ips: seq<U32> := [0x0A00_0000, 0x0A00_0001, 0x0A00_0002, 0x0A00_0003];
    ExampleBlock();
    ExampleBatches(ips);
    assert NoPanic(src, ips, probe);
    ExampleReported(probe, ips);
    assert RunScan(s, probe).Ok?;
    assert RunScan(s, probe).value == Reported(src, ips, probe);
  }

  /** 10.0.0.0/30 holds 10.0.0.0 to 10.0.0.3. */
  lemma ExampleBlock()
    ensures CollectedIps(V4(0x0A00_0000), 30) == Ok([0x0A00_0000, 0x0A00_0001, 0x0A00_0002, 0x0A00_0003])
  {
    assert BlockSize(30) == 4 by {
      assert Pow2(2) == 4;
    }
    var n := Network(0x0A00_0000, 30);
    assert n == 0x0A00_0000;
    var ips := CollectedIps(V4(0x0A00_0000), 30).value;
    assert |ips| == 4;
    assert ips == InclusiveRange(0x0A00_0000, 0x0A00_0003);
    assert ips[0] == 0x0A00_0000 && ips[1] == 0x0A00_0001 && ips[2] == 0x0A00_0002 && ips[3] == 0x0A00_0003;
    assert ips == [0x0A00_0000, 0x0A00_0001, 0x0A00_0002, 0x0A00_0003];
  }

  lemma ExampleBatches(ips: seq<U32>)
    requires ips == [0x0A00_0000, 0x0A00_0001, 0x0A00_0002, 0x0A00_0003]
    requires CollectedIps(V4(0x0A00_0000), 30) == Ok(ips)
    ensures GetIpBatches(NetworkScanner(V4(0x0A00_0005), V4(0x0A00_0000), 30, 2))
      == Ok([[0x0A00_0000, 0x0A00_0001], [0x0A00_0002, 0x0A00_0003]])
  {
    var bs: seq<seq<U32>> := [ips[..2], ips[2..]];
    assert Flatten(bs) == ips by {
      assert Flatten(bs) == ips[..2] + Flatten(bs[1..]);
      assert Flatten(bs[1..]) == ips[2..] + Flatten(bs[2..]);
    }
    ChunksUnique(ips, 2, bs);
    assert ips[..2] == [0x0A00_0000, 0x0A00_0001] && ips[2..] == [0x0A00_0002, 0x0A00_0003];
  }

  lemma ExampleReported(probe: Probe, ips: seq<U32>)
    requires ips == [0x0A00_0000, 0x0A00_0001, 0x0A00_0002, 0x0A00_0003]
    requires probe(V4(0x0A00_0005), V4(0x0A00_0000)) == Hosts([])
    requires probe(V4(0x0A00_0005), V4(0x0A00_0001)) == Hosts([V4(0x0A00_0001)])
    requires probe(V4(0x0A00_0005), V4(0x0A00_0002)) == Hosts([])
    requires probe(V4(0x0A00_0005), V4(0x0A00_0003)) == Hosts([V4(0x0A00_0003)])
    ensures Reported(V4(0x0A00_0005), ips, probe) == [V4(0x0A00_0001), V4(0x0A00_0003)]
  {
    var src := V4(0x0A00_0005);
    ReportedCons(src, ips, probe);
    ReportedCons(src, ips[1..], probe);
    ReportedCons(src, ips[2..], probe);
    ReportedCons(src, ips[3..], probe);
    assert ips[1..][1..] == ips[2..] && ips[2..][1..] == ips[3..] && ips[3..][1..] == [];
  }
}
