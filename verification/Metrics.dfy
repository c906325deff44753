// The per-directory accumulator and sums over finite maps of measured units.

module Metrics {
  import opened Wrappers
  import opened Saturating

  /** Sizes of one regular file; `privateBytes` is None where the reader cannot tell private bytes. */
  datatype Measure = Measure(logicalBytes: nat, allocatedBytes: nat, privateBytes: Option<nat>)

  datatype Metrics = Metrics(
    logicalBytes: nat,
    allocatedBytes: nat,
    privateBytes: nat,
    unknown: nat,
    files: nat,
    directories: nat,
    duplicates: nat,
    errors: nat)

  function Zero(): Metrics {
    Metrics(0, 0, 0, 0, 0, 0, 0, 0)
  }

  function OneDirectory(): Metrics {
    Metrics(0, 0, 0, 0, 0, 1, 0, 0)
  }

  function OneDuplicate(): Metrics {
    Metrics(0, 0, 0, 0, 0, 0, 1, 0)
  }

  function OneError(): Metrics {
    Metrics(0, 0, 0, 0, 0, 0, 0, 1)
  }

  /** One counted file; its private bytes count only when removing the counted links releases them. */
  function Weigh(m: Measure, releases: bool): Metrics {
    Metrics(
      m.logicalBytes,
      m.allocatedBytes,
      if m.privateBytes.Some? && releases then m.privateBytes.value else 0,
      if m.privateBytes.None? then 1 else 0,
      1, 0, 0, 0)
  }

  /** Exact sum. */
  function Plus(a: Metrics, b: Metrics): Metrics {
    Metrics(
      a.logicalBytes + b.logicalBytes, a.allocatedBytes + b.allocatedBytes,
      a.privateBytes + b.privateBytes, a.unknown + b.unknown,
      a.files + b.files, a.directories + b.directories, a.duplicates + b.duplicates, a.errors + b.errors)
  }

  /** Sum as the accumulator forms it: byte counts saturate, counters do not. */
  function Charge(a: Metrics, b: Metrics): Metrics {
    Metrics(
      SatAdd(a.logicalBytes, b.logicalBytes),
      SatAdd(a.allocatedBytes, b.allocatedBytes),
      SatAdd(a.privateBytes, b.privateBytes),
      a.unknown + b.unknown, a.files + b.files, a.directories + b.directories,
      a.duplicates + b.duplicates, a.errors + b.errors)
  }

  /** The accumulator shows the file part of an exact total. */
  predicate Shows(m: Metrics, total: Metrics) {
    && m.logicalBytes == Sat(total.logicalBytes)
    && m.allocatedBytes == Sat(total.allocatedBytes)
    && m.privateBytes == Sat(total.privateBytes)
    && m.unknown == total.unknown
    && m.files == total.files
  }

  /** File counts and byte counts are no larger (unknown private sizes are not compared). */
  predicate AtMost(a: Metrics, b: Metrics) {
    && a.logicalBytes <= b.logicalBytes
    && a.allocatedBytes <= b.allocatedBytes
    && a.privateBytes <= b.privateBytes
    && a.files <= b.files
  }

  // ---- totals ----

  ghost function Total<U(!new)>(m: map<U, Metrics>): Metrics
    decreases |m|
  {
    if m == map[] then Zero()
    else
      var u :| u in m;
      Plus(m[u], Total(m - {u}))
  }

  lemma {:induction false} TotalMinus<U(!new)>(m: map<U, Metrics>, u: U)
    requires u in m
    ensures Total(m) == Plus(m[u], Total(m - {u}))
    decreases |m|
  {
    var v :| v in m && Total(m) == Plus(m[v], Total(m - {v}));
    if v != u {
      var rest := m - {v} - {u};
      assert m - {u} - {v} == rest;
      TotalMinus(m - {v}, u);
      assert Total(m - {v}) == Plus(m[u], Total(rest));
      TotalMinus(m - {u}, v);
      assert Total(m - {u}) == Plus(m[v], Total(rest));
      assert Total(m) == Plus(m[v], Plus(m[u], Total(rest)));
      assert Total(m) == Plus(m[u], Plus(m[v], Total(rest)));
    } else {
      assert Total(m) == Plus(m[v], Total(m - {v}));
    }
  }

  lemma TotalInsert<U(!new)>(m: map<U, Metrics>, u: U, x: Metrics)
    requires u !in m
    ensures Total(m[u := x]) == Plus(x, Total(m))
  {
    TotalMinus(m[u := x], u);
    assert m[u := x] - {u} == m;
  }

  /** Dropping units and lowering weights lowers every compared sum. */
  lemma {:induction false} TotalMonotone<U(!new)>(a: map<U, Metrics>, b: map<U, Metrics>)
    requires forall u | u in a :: u in b && AtMost(a[u], b[u])
    ensures AtMost(Total(a), Total(b))
    decreases |a|
  {
    if a == map[] {
    } else {
      var u :| u in a;
      TotalMinus(a, u);
      TotalMinus(b, u);
      TotalMonotone(a - {u}, b - {u});
    }
  }

  /** Private bytes are bounded when every unit that carries some is matched by one that carries as many. */
  lemma {:induction false} PrivateMonotone<U(!new)>(a: map<U, Metrics>, b: map<U, Metrics>)
    requires forall u | u in a && a[u].privateBytes > 0 :: u in b && a[u].privateBytes <= b[u].privateBytes
    ensures Total(a).privateBytes <= Total(b).privateBytes
    decreases |a|
  {
    if a == map[] {
    } else {
      var u :| u in a;
      TotalMinus(a, u);
      if u in b {
        TotalMinus(b, u);
        PrivateMonotone(a - {u}, b - {u});
      } else {
        PrivateMonotone(a - {u}, b);
      }
    }
  }
}
