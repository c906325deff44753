// What the totals of a complete scan are, in plain sums over files and inodes: which entries are counted at a
// directory, and which bytes each of them contributes.

module Figures {
  import opened Wrappers
  import opened Paths
  import opened Metrics
  import opened Worlds
  import opened Agreement

  // ---- which entries are counted ----

  /** The two entries are one file: same file number, in directories of the same device. */
  predicate SameFile(w: World, f: Path, g: Path)
    requires w.Valid() && w.IsFile(f) && w.IsFile(g)
  {
    && w.nodes[f].id.Some? && w.nodes[f].id == w.nodes[g].id
    && DeviceOf(w, f) == DeviceOf(w, g)
  }

  /** The device of the entry's directory, zero when unknown. */
  function DeviceOf(w: World, f: Path): nat
    requires w.Valid() && w.IsFile(f)
  {
    assert f != [];
    if w.nodes[Parent(f)].device.Some? then w.nodes[Parent(f)].device.value else 0
  }

  /** An entry that cannot be recognised elsewhere, or is known to be alone. */
  predicate CountedAlone(w: World, f: Path)
    requires w.IsFile(f)
  {
    w.nodes[f].id.None? || w.nodes[f].links.None? || w.nodes[f].links.value <= 1
  }

  /** The entry is a link of the inode that goes by this device and file number. */
  predicate IsLinkOf(w: World, f: Path, k: Key)
    requires w.Valid() && w.IsFile(f)
  {
    w.nodes[f].id == Some(k.1) && DeviceOf(w, f) == k.0
  }

  lemma KeyMeans(w: World, f: Path, k: Key)
    requires w.Valid() && w.IsFile(f)
    ensures w.KeyOf(f) == Some(k) <==> IsLinkOf(w, f, k)
    ensures w.Shared(f) <==> !CountedAlone(w, f)
  {
  }

  /** Two entries go by the same key exactly when they are one file. */
  lemma KeysIdentify(w: World, f: Path, g: Path)
    requires w.Valid() && w.IsFile(f) && w.IsFile(g)
    ensures w.KeyOf(f).Some? && w.KeyOf(f) == w.KeyOf(g) <==> SameFile(w, f, g)
  {
  }

  /** Some shared entry is a link of this inode, and all the visible ones lie below p. */
  ghost predicate WhollyBelow(w: World, k: Key, p: Path)
    requires w.Valid()
  {
    && (exists f | f in w.Files() :: IsLinkOf(w, f, k) && !CountedAlone(w, f))
    && (forall g | g in w.Files() && IsLinkOf(w, g, k) :: Above(p, g))
  }

  /** Counted at p: the entries below it that are counted alone, and the inodes wholly below it. */
  lemma CountedAt(w: World, p: Path, u: Unit)
    requires w.Valid()
    ensures u in w.UnitsAt(p) <==>
              match u
              case Single(f) => f in w.Files() && CountedAlone(w, f) && Above(p, f)
              case Linked(k) => WhollyBelow(w, k, p)
  {
    hide World.Valid, World.KeyOf, CountedAlone, IsLinkOf;
    LinksMean(w);
    match u
    case Single(f) =>
    case Linked(k) =>
      if u in w.UnitsAt(p) {
        var f :| f in w.Files() && w.Shared(f) && w.AllLinksBelow(w.KeyOf(f).value, p) && u == Linked(w.KeyOf(f).value);
        SharedHasKey(w, f);
      }
      if WhollyBelow(w, k, p) {
        var f :| f in w.Files() && IsLinkOf(w, f, k) && !CountedAlone(w, f);
        assert w.AllLinksBelow(k, p);
      }
  }

  lemma SharedHasKey(w: World, f: Path)
    requires w.Valid() && w.IsFile(f) && w.Shared(f)
    ensures w.KeyOf(f).Some?
  {
  }

  /** The visible links of an inode. */
  lemma LinksMean(w: World)
    requires w.Valid()
    ensures forall f | f in w.Files() :: w.Shared(f) <==> !CountedAlone(w, f)
    ensures forall f, k | f in w.Files() :: w.KeyOf(f) == Some(k) <==> IsLinkOf(w, f, k)
    ensures forall f, k :: f in w.LinksOf(k) <==> f in w.Files() && IsLinkOf(w, f, k)
  {
    hide World.Valid, World.KeyOf, World.Shared, CountedAlone, IsLinkOf;
    forall f, k: Key | f in w.Files()
      ensures w.KeyOf(f) == Some(k) <==> IsLinkOf(w, f, k)
      ensures w.Shared(f) <==> !CountedAlone(w, f)
    {
      KeyMeans(w, f, k);
    }
    forall f | f in w.Files() ensures w.Shared(f) <==> !CountedAlone(w, f) {
      KeyMeans(w, f, (0, 0));
    }
  }

  // ---- sums ----

  ghost function SumValues<U(!new)>(m: map<U, nat>): nat
    decreases |m|
  {
    if m == map[] then 0
    else
      var u :| u in m;
      m[u] + SumValues(m - {u})
  }

  lemma {:induction false} SumMinus<U(!new)>(m: map<U, nat>, u: U)
    requires u in m
    ensures SumValues(m) == m[u] + SumValues(m - {u})
    decreases |m|
  {
    var v :| v in m && SumValues(m) == m[v] + SumValues(m - {v});
    if v != u {
      assert m - {u} - {v} == m - {v} - {u};
      SumMinus(m - {v}, u);
      SumMinus(m - {u}, v);
    }
  }

  /** One figure of each unit. */
  ghost function Field<U(!new)>(m: map<U, Metrics>, figure: Metrics -> nat): map<U, nat> {
    map u | u in m :: figure(m[u])
  }

  ghost predicate Additive(figure: Metrics -> nat) {
    figure(Zero()) == 0 && forall a, b :: figure(Plus(a, b)) == figure(a) + figure(b)
  }

  /** A figure of the total is the sum of that figure. */
  lemma {:induction false} TotalOfField<U(!new)>(m: map<U, Metrics>, figure: Metrics -> nat)
    requires Additive(figure)
    ensures figure(Total(m)) == SumValues(Field(m, figure))
    decreases |m|
  {
    if m == map[] {
      assert Field(m, figure) == map[];
    } else {
      var u :| u in m;
      TotalMinus(m, u);
      SumMinus(Field(m, figure), u);
      assert Field(m, figure) - {u} == Field(m - {u}, figure);
      TotalOfField(m - {u}, figure);
    }
  }

  /** Ones and zeros sum up to the number of ones. */
  lemma {:induction false} SumCounts<U(!new)>(m: map<U, nat>, ones: set<U>)
    requires forall u | u in m :: m[u] == if u in ones then 1 else 0
    requires ones <= m.Keys
    ensures SumValues(m) == |ones|
    decreases |m|
  {
    if m == map[] {
      assert ones == {};
    } else {
      var u :| u in m;
      SumMinus(m, u);
      SumCounts(m - {u}, ones - {u});
      assert u in ones ==> |ones| == |ones - {u}| + 1;
      assert u !in ones ==> ones == ones - {u};
    }
  }

  // ---- what is counted ----

  /** An entry that stands for the unit: any link of an inode. */
  ghost function EntryOf(w: World, u: Unit): (f: Path)
    requires w.Valid() && w.Weighable(u)
    ensures f in w.Files() && (u.Single? ==> f == u.path) && (u.Linked? ==> f in w.LinksOf(u.key))
  {
    match u
    case Single(f) => f
    case Linked(k) => var f :| f in w.LinksOf(k); f
  }

  /** Every link the unit claims to have is visible: a lone entry claims one, an inode is compared with its links. */
  ghost predicate AllThere(w: World, u: Unit)
    requires w.Valid() && w.Weighable(u)
  {
    var links := w.nodes[EntryOf(w, u)].links;
    match u
    case Single(_) => links.None? || links.value <= 1
    case Linked(k) => links.None? || links.value <= |w.LinksOf(k)|
  }

  ghost function LogicalSizes(w: World, units: set<Unit>): map<Unit, nat>
    requires w.Valid() && forall u | u in units :: w.Weighable(u)
  {
    map u | u in units :: w.nodes[EntryOf(w, u)].measure.logicalBytes
  }

  ghost function AllocatedSizes(w: World, units: set<Unit>): map<Unit, nat>
    requires w.Valid() && forall u | u in units :: w.Weighable(u)
  {
    map u | u in units :: w.nodes[EntryOf(w, u)].measure.allocatedBytes
  }

  /** Private bytes of the units all of whose links are visible, as far as they are known. */
  ghost function PrivateSizes(w: World, units: set<Unit>): map<Unit, nat>
    requires w.Valid() && forall u | u in units :: w.Weighable(u)
  {
    map u | u in units && AllThere(w, u) && w.nodes[EntryOf(w, u)].measure.privateBytes.Some? ::
      w.nodes[EntryOf(w, u)].measure.privateBytes.value
  }

  ghost function UnknownUnits(w: World, units: set<Unit>): set<Unit>
    requires w.Valid() && forall u | u in units :: w.Weighable(u)
  {
    set u | u in units && w.nodes[EntryOf(w, u)].measure.privateBytes.None?
  }

  /** The weight of a unit, figure by figure. */
  ghost predicate WeightShows(w: World, u: Unit)
    requires w.Valid() && w.Weighable(u)
  {
    var measure, weight := w.nodes[EntryOf(w, u)].measure, w.Weight(u);
    && weight.logicalBytes == measure.logicalBytes && weight.allocatedBytes == measure.allocatedBytes
    && weight.privateBytes == (if AllThere(w, u) && measure.privateBytes.Some? then measure.privateBytes.value else 0)
    && weight.unknown == (if measure.privateBytes.None? then 1 else 0)
    && weight.files == 1
  }

  lemma WeightIs(w: World, u: Unit)
    requires w.Valid() && w.InodesConsistent() && w.Weighable(u)
    ensures WeightShows(w, u)
  {
    match u
    case Single(f) =>
    case Linked(k) =>
      LinkedWeight(w, k, EntryOf(w, u));
      assert w.LinksOf(k) != {};
      assert |w.LinksOf(k)| > 0;
  }

  /** Dropping zeros does not change a sum. */
  lemma {:induction false} SumWithoutZeros<U(!new)>(m: map<U, nat>, n: map<U, nat>)
    requires forall u | u in m :: if u in n then m[u] == n[u] else m[u] == 0
    requires n.Keys <= m.Keys
    ensures SumValues(m) == SumValues(n)
    decreases |m|
  {
    if m == map[] {
      assert n == map[];
    } else {
      var u :| u in m;
      SumMinus(m, u);
      if u in n { SumMinus(n, u); } else { assert n - {u} == n; }
      SumWithoutZeros(m - {u}, n - {u});
    }
  }

  function Logical(): Metrics -> nat {
    (m: Metrics) => m.logicalBytes
  }

  function Allocated(): Metrics -> nat {
    (m: Metrics) => m.allocatedBytes
  }

  function Private(): Metrics -> nat {
    (m: Metrics) => m.privateBytes
  }

  function Unknown(): Metrics -> nat {
    (m: Metrics) => m.unknown
  }

  function Files(): Metrics -> nat {
    (m: Metrics) => m.files
  }

  lemma AllAdditive()
    ensures Additive(Logical()) && Additive(Allocated()) && Additive(Private())
    ensures Additive(Unknown()) && Additive(Files())
  {
  }

  lemma FieldsAre(w: World, units: set<Unit>)
    requires w.Valid() && forall u | u in units :: w.Weighable(u) && WeightShows(w, u)
    ensures var weights := w.Weights(units);
            && Field(weights, Logical()) == LogicalSizes(w, units)
            && Field(weights, Allocated()) == AllocatedSizes(w, units)
  {
    hide World.Valid, World.Weighable, World.Weight, AllThere;
  }

  lemma PrivateFields(w: World, units: set<Unit>)
    requires w.Valid() && forall u | u in units :: w.Weighable(u) && WeightShows(w, u)
    ensures SumValues(Field(w.Weights(units), Private())) == SumValues(PrivateSizes(w, units))
  {
    hide World.Valid, World.Weighable, World.Weight, AllThere, SumValues;
    var all, known := Field(w.Weights(units), Private()), PrivateSizes(w, units);
    forall u | u in all ensures if u in known then all[u] == known[u] else all[u] == 0 {
      assert WeightShows(w, u);
    }
    SumWithoutZeros(all, known);
  }

  lemma CountFields(w: World, units: set<Unit>)
    requires w.Valid() && forall u | u in units :: w.Weighable(u) && WeightShows(w, u)
    ensures SumValues(Field(w.Weights(units), Unknown())) == |UnknownUnits(w, units)|
    ensures SumValues(Field(w.Weights(units), Files())) == |units|
  {
    hide World.Valid, World.Weighable, World.Weight, AllThere, SumValues;
    var unknown, files := Field(w.Weights(units), Unknown()), Field(w.Weights(units), Files());
    forall u | u in units
      ensures unknown[u] == (if u in UnknownUnits(w, units) then 1 else 0) && files[u] == 1
    {
      assert WeightShows(w, u);
    }
    SumCounts(unknown, UnknownUnits(w, units));
    SumCounts(files, units);
  }

  /** The totals over a set of units. */
  lemma TotalsAre(w: World, units: set<Unit>)
    requires w.Valid() && w.InodesConsistent() && forall u | u in units :: w.Weighable(u)
    ensures var total := Total(w.Weights(units));
            && total.logicalBytes == SumValues(LogicalSizes(w, units))
            && total.allocatedBytes == SumValues(AllocatedSizes(w, units))
            && total.privateBytes == SumValues(PrivateSizes(w, units))
            && total.unknown == |UnknownUnits(w, units)|
            && total.files == |units|
  {
    hide World.Valid, World.InodesConsistent, World.Weighable, World.Weight, WeightShows, Total, SumValues, Field,
      Additive, World.Weights;
    var weights := w.Weights(units);
    forall u | u in units ensures WeightShows(w, u) {
      WeightIs(w, u);
    }
    AllAdditive();
    FieldsAre(w, units);
    PrivateFields(w, units);
    CountFields(w, units);
    TotalOfField(weights, Logical());
    TotalOfField(weights, Allocated());
    TotalOfField(weights, Private());
    TotalOfField(weights, Unknown());
    TotalOfField(weights, Files());
  }

  // ---- what a report shows ----

  /** Largest value a byte count can show. */
  function Capped(n: nat): nat {
    if n < 0x1_0000_0000_0000_0000 then n else 0xFFFF_FFFF_FFFF_FFFF
  }

  /**
   * An exact aggregate shows, up to the cap, the logical and allocated bytes of everything counted there, whether or
   * not all links of an inode are visible; private bytes only of what has all its links there; how much of it has
   * unknown private bytes; how many files and inodes were counted; and how many directories there are.
   */
  lemma ExactMeans(w: World, m: Metrics, p: Path)
    requires w.Valid() && w.InodesConsistent()
    ensures forall u | u in w.UnitsAt(p) :: w.Weighable(u)
    ensures Exact(w, m, p) <==>
              && m.logicalBytes == Capped(SumValues(LogicalSizes(w, w.UnitsAt(p))))
              && m.allocatedBytes == Capped(SumValues(AllocatedSizes(w, w.UnitsAt(p))))
              && m.privateBytes == Capped(SumValues(PrivateSizes(w, w.UnitsAt(p))))
              && m.unknown == |UnknownUnits(w, w.UnitsAt(p))|
              && m.files == |w.UnitsAt(p)|
              && m.directories == |w.DirectoriesAt(p)|
  {
    hide World.Valid, World.InodesConsistent, World.Weighable, World.UnitsAt, Total, SumValues;
    w.UnitsAreWeighable(p);
    TotalsAre(w, w.UnitsAt(p));
  }

  /** A lower bound stays below the same sums. */
  lemma LowerBoundMeans(w: World, m: Metrics, p: Path)
    requires w.Valid() && w.InodesConsistent()
    ensures forall u | u in w.UnitsAt(p) :: w.Weighable(u)
    ensures AtMostTrue(w, m, p) <==>
              && m.logicalBytes <= Capped(SumValues(LogicalSizes(w, w.UnitsAt(p))))
              && m.allocatedBytes <= Capped(SumValues(AllocatedSizes(w, w.UnitsAt(p))))
              && m.privateBytes <= Capped(SumValues(PrivateSizes(w, w.UnitsAt(p))))
              && m.files <= |w.UnitsAt(p)|
              && m.directories <= |w.DirectoriesAt(p)|
  {
    hide World.Valid, World.InodesConsistent, World.Weighable, World.UnitsAt, Total, SumValues;
    w.UnitsAreWeighable(p);
    TotalsAre(w, w.UnitsAt(p));
  }

  /** What private bytes are bounded by: those of units with as many links below p as they have at all. */
  lemma FloorMeans(w: World, p: Path)
    requires w.Valid() && w.InodesConsistent()
    ensures forall u | u in w.ReleasedAt(p) :: w.Weighable(u)
    ensures w.PrivateFloor(p) == SumValues(PrivateSizes(w, w.ReleasedAt(p)))
  {
    hide World.Valid, World.InodesConsistent, World.Weighable, World.ReleasedAt, Total, SumValues;
    w.ReleasedAreWeighable(p);
    TotalsAre(w, w.ReleasedAt(p));
  }

  /** The visible links of an inode at or below p. */
  ghost function LinksThere(w: World, k: Key, p: Path): set<Path>
    requires w.Valid()
  {
    set f | f in w.Files() && IsLinkOf(w, f, k) && Above(p, f)
  }

  /** Released with p: lone entries below it, and inodes none of whose links is missing below it. */
  lemma ReleasedWith(w: World, p: Path, u: Unit)
    requires w.Valid() && w.InodesConsistent()
    ensures u in w.ReleasedAt(p) <==>
              match u
              case Single(f) =>
                f in w.Files() && Above(p, f) && (w.nodes[f].links.None? || w.nodes[f].links.value <= 1)
              case Linked(k) =>
                exists f | f in w.Files() ::
                  IsLinkOf(w, f, k) && !CountedAlone(w, f) && w.nodes[f].links.value <= |LinksThere(w, k, p)|
  {
    hide World.Valid, World.KeyOf, World.InodesConsistent, IsLinkOf;
    LinksMean(w);
    match u
    case Single(f) =>
    case Linked(k) =>
      assert w.LinksBelow(k, p) == LinksThere(w, k, p);
  }
}
