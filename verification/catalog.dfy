/** The port catalog scanned by `scan_most_used_ports_for_ip`: five groups
    of well-known service ports, concatenated in order with duplicates kept. */
module Catalog {
  import Text

  // ---------------------------------------------------------------------------
  // The port catalog

  /** A catalog entry: a nonzero `u16`. */
  type Port = p: nat | 1 <= p <= Text.U16_MAX witness 1

  const RelationalDbPorts: seq<Port> := [7210, 3306, 1521, 1830, 5432, 1433, 1434]

  const NoSqlDbPorts: seq<Port> := [
    8529, 7000, 7001, 9042, 5984, 9200, 9300,
    27017, 27018, 27019, 28017, 7473, 7474, 6379,
    8087, 8098, 8080, 28015, 29015, 7574, 8983]

  const WebAppServerPorts: seq<Port> := [
    3528, 3529, 4447, 8009, 8080, 8443, 9990,
    9999, 8080, 8005, 8009, 8080, 4712, 4713, 8009,
    8080, 8443, 9990, 9993, 5556, 7001, 7002, 8001,
    8008, 9043, 9060, 9080, 9443]

  const ConfigStorePorts: seq<Port> := [
    8300, 8301, 8302, 8400, 8500, 8600, 2379, 2380,
    6443, 8080, 5050, 5051, 2181, 2888, 3888]

  const ProtocolPorts: seq<Port> := [
    53, 853, 20, 21, 989, 990, 80, 443, 143, 993, 543,
    544, 749, 750, 751, 752, 753, 754, 760, 389, 137,
    138, 139, 944, 123, 530, 514, 873, 445, 161, 162,
    199, 22, 23, 992, 25, 465, 43]

  /** The five groups concatenated in order, duplicates kept. */
  function CatalogPorts(): (ports: seq<Port>)
    ensures |RelationalDbPorts| == 7 && |NoSqlDbPorts| == 21 && |WebAppServerPorts| == 28
    ensures |ConfigStorePorts| == 15 && |ProtocolPorts| == 38
    ensures |ports| == 109
    ensures forall i :: 0 <= i < |ports| ==> 1 <= ports[i] <= Text.U16_MAX
  {
    RelationalDbPorts + NoSqlDbPorts + WebAppServerPorts + ConfigStorePorts + ProtocolPorts
  }

  /** `x` occurs in `s[lo..hi]` exactly at the positions of `pos` in that
      range. */
  predicate AtPositionsIn(s: seq<nat>, x: nat, pos: set<nat>, lo: nat, hi: nat)
    requires hi <= |s|
  {
    forall i :: lo <= i < hi ==> (s[i] == x <==> i in pos)
  }

  /** `x` occurs in `s` exactly at the positions `pos`. */
  predicate AtPositions(s: seq<nat>, x: nat, pos: set<nat>) {
    && AtPositionsIn(s, x, pos, 0, |s|)
    && (forall i :: i in pos ==> i < |s|)
  }

  /** How often `x` occurs in `s`. */
  function Occurrences(s: seq<nat>, x: nat): nat
    decreases |s|
  {
    if |s| == 0 then 0
    else Occurrences(s[..|s| - 1], x) + (if s[|s| - 1] == x then 1 else 0)
  }

  /** Counting agrees with the multiplicity in the multiset of `s`. */
  lemma {:induction false} OccurrencesMultiset(s: seq<nat>, x: nat)
    ensures Occurrences(s, x) == multiset(s)[x]
    decreases |s|
  {
    if |s| > 0 {
      var n := |s| - 1;
      OccurrencesMultiset(s[..n], x);
      assert s == s[..n] + [s[n]];
      var before: multiset<nat> := multiset(s[..n]);
      assert multiset(s) == before + multiset{s[n]};
    }
  }

  /** The count over a concatenation is the sum of the counts. */
  lemma {:induction false} OccurrencesAppend(a: seq<nat>, b: seq<nat>, x: nat)
    ensures Occurrences(a + b, x) == Occurrences(a, x) + Occurrences(b, x)
    decreases |b|
  {
    if |b| == 0 {
      assert a + b == a;
    } else {
      var n := |b| - 1;
      OccurrencesAppend(a, b[..n], x);
      assert (a + b)[..|a + b| - 1] == a + b[..n];
      assert (a + b)[|a + b| - 1] == b[n];
    }
  }

  /** `x` occurs in `s` once per position in `pos`. */
  lemma {:induction false} CountAtPositions(s: seq<nat>, x: nat, pos: set<nat>)
    requires AtPositions(s, x, pos)
    ensures Occurrences(s, x) == |pos|
    decreases |s|
  {
    if |s| == 0 {
      assert pos == {};
    } else {
      var n := |s| - 1;
      if s[n] == x {
        CountAtPositions(s[..n], x, pos - {n});
      } else {
        CountAtPositions(s[..n], x, pos);
      }
    }
  }

  lemma RelationalDbAt8080()
    ensures AtPositions(RelationalDbPorts, 8080, {})
  {
  }

  lemma NoSqlDbAt8080()
    ensures AtPositions(NoSqlDbPorts, 8080, {16})
  {
    var s, pos := NoSqlDbPorts, {16};
    assert AtPositionsIn(s, 8080, pos, 0, 7);
    assert AtPositionsIn(s, 8080, pos, 7, 14);
    assert AtPositionsIn(s, 8080, pos, 14, 21);
  }

  lemma WebAppServerAt8080()
    ensures AtPositions(WebAppServerPorts, 8080, {4, 8, 11, 15})
    ensures |{4, 8, 11, 15}| == 4
  {
    var s, pos := WebAppServerPorts, {4, 8, 11, 15};
    assert AtPositionsIn(s, 8080, pos, 0, 7);
    assert AtPositionsIn(s, 8080, pos, 7, 14);
    assert AtPositionsIn(s, 8080, pos, 14, 21);
    assert AtPositionsIn(s, 8080, pos, 21, 28);
  }

  lemma ConfigStoreAt8080()
    ensures AtPositions(ConfigStorePorts, 8080, {9})
  {
    var s, pos := ConfigStorePorts, {9};
    assert AtPositionsIn(s, 8080, pos, 0, 8);
    assert AtPositionsIn(s, 8080, pos, 8, 15);
  }

  lemma ProtocolAt8080()
    ensures AtPositions(ProtocolPorts, 8080, {})
  {
    var s, pos: set<nat> := ProtocolPorts, {};
    assert AtPositionsIn(s, 8080, pos, 0, 13);
    assert AtPositionsIn(s, 8080, pos, 13, 26);
    assert AtPositionsIn(s, 8080, pos, 26, 38);
  }

  /** 8080 is listed six times: once as a NoSQL port, four times as a web
      application server port and once as a configuration store port. */
  lemma Catalog8080Count()
    ensures Occurrences(CatalogPorts(), 8080) == 6
  {
    var r, n, w, c, p := RelationalDbPorts, NoSqlDbPorts, WebAppServerPorts, ConfigStorePorts, ProtocolPorts;
    RelationalDbAt8080();
    CountAtPositions(r, 8080, {});
    NoSqlDbAt8080();
    CountAtPositions(n, 8080, {16});
    WebAppServerAt8080();
    CountAtPositions(w, 8080, {4, 8, 11, 15});
    ConfigStoreAt8080();
    CountAtPositions(c, 8080, {9});
    ProtocolAt8080();
    CountAtPositions(p, 8080, {});
    OccurrencesAppend(r, n, 8080);
    OccurrencesAppend(r + n, w, 8080);
    OccurrencesAppend(r + n + w, c, 8080);
    OccurrencesAppend(r + n + w + c, p, 8080);
  }

  /** The same count as a multiset multiplicity. */
  lemma Catalog8080Multiplicity()
    ensures multiset(CatalogPorts())[8080] == 6
  {
    Catalog8080Count();
    OccurrencesMultiset(CatalogPorts(), 8080);
  }
}
